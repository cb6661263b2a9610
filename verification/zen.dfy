/** The fixed input of generate.py (lines 7-27), the nineteen aphorisms of
    the Zen of Python, and what the script makes of it: nineteen different
    slugs, a registry of nineteen entries in input order, and twenty files. */
module Zen {
  import opened Slug
  import opened Registry
  import opened Plan

  /** The list `lines` of generate.py.  Each line is the concatenation of
      short literals, split only between words, so that the verifier can
      read any character of it quickly; the text is the source's, verbatim. */
  const Lines: seq<string> := [
    "Beautiful is " + "better than " + "ugly.",
    "Explicit is " + "better than " + "implicit.",
    "Simple is " + "better than " + "complex.",
    "Complex is " + "better than " + "complicated.",
    "Flat is better " + "than nested.",
    "Sparse is " + "better than " + "dense.",
    "Readability " + "counts.",
    "Special cases " + "aren't special " + "enough to break " + "the rules.",
    "Although " + "practicality " + "beats purity.",
    "Errors should " + "never pass " + "silently.",
    "Unless " + "explicitly " + "silenced.",
    "In the face of " + "ambiguity, " + "refuse the " + "temptation to " + "guess.",
    "There should be " + "one-- and " + "preferably only " + "one --obvious " + "way to do it.",
    "Although that " + "way may not be " + "obvious at " + "first unless " + "you're Dutch.",
    "Now is better " + "than never.",
    "Although never " + "is often better " + "than *right* " + "now.",
    "If the " + "implementation " + "is hard to " + "explain, it's a " + "bad idea.",
    "If the " + "implementation " + "is easy to " + "explain, it may " + "be a good idea.",
    "Namespaces are " + "one honking " + "great idea -- " + "let's do more " + "of those!"
  ]

  /** Reads a slug's first three characters and names the first Zen line
      whose slug starts with them, or -1 when no Zen slug does. */
  function Signature(s: string): int
  {
    if |s| < 3 then -1
    else
      var a, b, c := s[0], s[1], s[2];
      if a == 'b' && b == 'e' && c == 'a' then 0
      else if a == 'e' && b == 'x' && c == 'p' then 1
      else if a == 's' && b == 'i' && c == 'm' then 2
      else if a == 'c' && b == 'o' && c == 'm' then 3
      else if a == 'f' && b == 'l' && c == 'a' then 4
      else if a == 's' && b == 'p' && c == 'a' then 5
      else if a == 'r' && b == 'e' && c == 'a' then 6
      else if a == 's' && b == 'p' && c == 'e' then 7
      else if a == 'a' && b == 'l' && c == 't' then 8
      else if a == 'e' && b == 'r' && c == 'r' then 9
      else if a == 'u' && b == 'n' && c == 'l' then 10
      else if a == 'i' && b == 'n' && c == '-' then 11
      else if a == 't' && b == 'h' && c == 'e' then 12
      else if a == 'n' && b == 'o' && c == 'w' then 14
      else if a == 'i' && b == 'f' && c == '-' then 16
      else if a == 'n' && b == 'a' && c == 'm' then 18
      else -1
  }

  /** The first Zen line whose slug shares its first three characters with
      that of line `i`: only the three lines opening with "Although" and the
      two opening with "If the implementation is" share them. */
  function FirstWithHead(i: int): int
  {
    if i == 13 || i == 15 then 8 else if i == 17 then 16 else i
  }

  /** The signature reads only the first three characters. */
  lemma SignatureHead(s: string, h: string)
    requires |h| == 3 && h <= s
    ensures Signature(s) == Signature(h)
  {
    assert s[0] == h[0] && s[1] == h[1] && s[2] == h[2];
  }

  /** A line whose first characters slug to a known head has that head's
      signature. */
  lemma HeadSignature(line: string, head: string, slugHead: string, k: int)
    requires head <= line && SlugOf(head) == slugHead
    requires |slugHead| == 3 && Signature(slugHead) == k
    ensures Signature(Slugify(line)) == k
  {
    SlugOfPrefix(head, line);
    SignatureHead(Slugify(line), slugHead);
  }

  // One lemma per line, each naming the line's first three characters and
  // their slug.  The verifier evaluates a slug on a string literal only a
  // few characters at a time, and one proof that read all nineteen lines
  // would be too large; ZenSignatures gathers the nineteen facts.

  lemma Signature0()
    ensures Signature(Slugs(Lines)[0]) == FirstWithHead(0)
  {
    HeadSignature(Lines[0], "Bea", "bea", 0);
  }

  lemma Signature1()
    ensures Signature(Slugs(Lines)[1]) == FirstWithHead(1)
  {
    HeadSignature(Lines[1], "Exp", "exp", 1);
  }

  lemma Signature2()
    ensures Signature(Slugs(Lines)[2]) == FirstWithHead(2)
  {
    HeadSignature(Lines[2], "Sim", "sim", 2);
  }

  lemma Signature3()
    ensures Signature(Slugs(Lines)[3]) == FirstWithHead(3)
  {
    HeadSignature(Lines[3], "Com", "com", 3);
  }

  lemma Signature4()
    ensures Signature(Slugs(Lines)[4]) == FirstWithHead(4)
  {
    HeadSignature(Lines[4], "Fla", "fla", 4);
  }

  lemma Signature5()
    ensures Signature(Slugs(Lines)[5]) == FirstWithHead(5)
  {
    HeadSignature(Lines[5], "Spa", "spa", 5);
  }

  lemma Signature6()
    ensures Signature(Slugs(Lines)[6]) == FirstWithHead(6)
  {
    HeadSignature(Lines[6], "Rea", "rea", 6);
  }

  lemma Signature7()
    ensures Signature(Slugs(Lines)[7]) == FirstWithHead(7)
  {
    HeadSignature(Lines[7], "Spe", "spe", 7);
  }

  lemma Signature8()
    ensures Signature(Slugs(Lines)[8]) == FirstWithHead(8)
  {
    HeadSignature(Lines[8], "Alt", "alt", 8);
  }

  lemma Signature9()
    ensures Signature(Slugs(Lines)[9]) == FirstWithHead(9)
  {
    HeadSignature(Lines[9], "Err", "err", 9);
  }

  lemma Signature10()
    ensures Signature(Slugs(Lines)[10]) == FirstWithHead(10)
  {
    HeadSignature(Lines[10], "Unl", "unl", 10);
  }

  lemma Signature11()
    ensures Signature(Slugs(Lines)[11]) == FirstWithHead(11)
  {
    HeadSignature(Lines[11], "In ", "in-", 11);
  }

  lemma Signature12()
    ensures Signature(Slugs(Lines)[12]) == FirstWithHead(12)
  {
    HeadSignature(Lines[12], "The", "the", 12);
  }

  lemma Signature13()
    ensures Signature(Slugs(Lines)[13]) == FirstWithHead(13)
  {
    HeadSignature(Lines[13], "Alt", "alt", 8);
  }

  lemma Signature14()
    ensures Signature(Slugs(Lines)[14]) == FirstWithHead(14)
  {
    HeadSignature(Lines[14], "Now", "now", 14);
  }

  lemma Signature15()
    ensures Signature(Slugs(Lines)[15]) == FirstWithHead(15)
  {
    HeadSignature(Lines[15], "Alt", "alt", 8);
  }

  lemma Signature16()
    ensures Signature(Slugs(Lines)[16]) == FirstWithHead(16)
  {
    HeadSignature(Lines[16], "If ", "if-", 16);
  }

  lemma Signature17()
    ensures Signature(Slugs(Lines)[17]) == FirstWithHead(17)
  {
    HeadSignature(Lines[17], "If ", "if-", 16);
  }

  lemma Signature18()
    ensures Signature(Slugs(Lines)[18]) == FirstWithHead(18)
  {
    HeadSignature(Lines[18], "Nam", "nam", 18);
  }

  /** Every Zen slug names, through its signature, the first Zen line with
      the same three-character head. */
  lemma ZenSignatures()
    ensures |Lines| == 19
    ensures forall i :: 0 <= i < |Lines| ==> Signature(Slugs(Lines)[i]) == FirstWithHead(i)
  {
    forall i | 0 <= i < |Lines|
      ensures Signature(Slugs(Lines)[i]) == FirstWithHead(i)
    {
      if i == 0 {
        Signature0();
      } else if i == 1 {
        Signature1();
      } else if i == 2 {
        Signature2();
      } else if i == 3 {
        Signature3();
      } else if i == 4 {
        Signature4();
      } else if i == 5 {
        Signature5();
      } else if i == 6 {
        Signature6();
      } else if i == 7 {
        Signature7();
      } else if i == 8 {
        Signature8();
      } else if i == 9 {
        Signature9();
      } else if i == 10 {
        Signature10();
      } else if i == 11 {
        Signature11();
      } else if i == 12 {
        Signature12();
      } else if i == 13 {
        Signature13();
      } else if i == 14 {
        Signature14();
      } else if i == 15 {
        Signature15();
      } else if i == 16 {
        Signature16();
      } else if i == 17 {
        Signature17();
      } else {
        Signature18();
      }
    }
  }


  /** Slugs with different signatures differ; among the Zen lines only the
      "Although" lines and the "If the implementation is" lines share one. */
  lemma DistinctBySignature(s: seq<string>)
    requires |s| == 19
    requires forall i :: 0 <= i < |s| ==> Signature(s[i]) == FirstWithHead(i)
    requires s[8] != s[13] && s[8] != s[15] && s[13] != s[15] && s[16] != s[17]
    ensures Distinct(s)
  {
    forall i, j | 0 <= i < j < |s|
      ensures s[i] != s[j]
    {
      assert Signature(s[i]) == FirstWithHead(i) && Signature(s[j]) == FirstWithHead(j);
    }
  }

  /** The "Although" lines part after "Although ". */
  lemma PracticalityThatDiffer()
    ensures Slugify(Lines[8]) != Slugify(Lines[13])
  {
    SlugsDiverge(Lines[8], Lines[13], "Although ", 'p', 't');
  }

  lemma PracticalityNeverDiffer()
    ensures Slugify(Lines[8]) != Slugify(Lines[15])
  {
    SlugsDiverge(Lines[8], Lines[15], "Although ", 'p', 'n');
  }

  lemma ThatNeverDiffer()
    ensures Slugify(Lines[13]) != Slugify(Lines[15])
  {
    SlugsDiverge(Lines[13], Lines[15], "Although ", 't', 'n');
  }

  /** The two "If the implementation is" lines part at "hard" and "easy". */
  lemma HardEasyDiffer()
    ensures Slugify(Lines[16]) != Slugify(Lines[17])
  {
    SlugsDiverge(Lines[16], Lines[17], "If the " + "implementation " + "is ", 'h', 'e');
  }

  /** The nineteen slugs are pairwise different. */
  lemma ZenSlugsDistinct()
    ensures |Lines| == 19
    ensures Distinct(Slugs(Lines))
  {
    ZenSignatures();
    PracticalityThatDiffer();
    PracticalityNeverDiffer();
    ThatNeverDiffer();
    HardEasyDiffer();
    DistinctBySignature(Slugs(Lines));
  }

  /** On the Zen lines the registry has nineteen entries: the slugs, in input
      order, each bound to its own line. */
  lemma ZenRegistry()
    ensures var d := Build(Lines);
      && |d.keys| == |Lines| == 19
      && d.keys == Slugs(Lines)
      && forall i :: 0 <= i < |Lines| ==> d.values[d.keys[i]] == Lines[i]
  {
    ZenSlugsDistinct();
    AssignDistinct(Slugs(Lines), Lines);
    AssignDistinctValues(Slugs(Lines), Lines);
  }

  /** A string whose signature is -1 is none of the slugs. */
  lemma NotASlug(s: seq<string>, x: string)
    requires |s| == 19
    requires forall i :: 0 <= i < |s| ==> Signature(s[i]) == FirstWithHead(i)
    requires Signature(x) == -1
    ensures x !in s
  {
    forall i | 0 <= i < |s|
      ensures s[i] != x
    {
      assert Signature(s[i]) == FirstWithHead(i) >= 0;
    }
  }

  /** No Zen line has the slug `index`, so no line page is overwritten by the
      index page. */
  lemma ZenNoIndexSlug()
    ensures "index" !in Build(Lines).values
  {
    ZenSignatures();
    assert Signature("index") == -1;
    NotASlug(Slugs(Lines), "index");
  }

  /** On the Zen lines the script writes twenty different files, one page
      per line in input order and the index last, and none overwrites
      another. */
  lemma ZenWrites()
    ensures var plan := Generate(Lines);
      && |plan| == 20
      && (forall i :: 0 <= i < 19 ==>
            StemOf(plan[i].path) == Some(Slugify(Lines[i])) && plan[i].payload == LinePage(Lines[i]))
      && plan[19] == Write(IndexPath, IndexPage(Build(Lines)))
      && Distinct(Paths(plan))
      && |Execute(plan)| == 20
  {
    ZenRegistry();
    ZenNoIndexSlug();
    AssignValid(Slugs(Lines), Lines);
    PlanPathsDistinct(Build(Lines));
    FilesWritten(Build(Lines));
  }

  // The full slugs of generate.py lines 14 and 26.  Each line is split into
  // its literal pieces and each piece into chunks of at most four
  // characters: <Name>Chunks evaluates the slug of a chunk, <Name>Pieces
  // states how the chunks make up the piece and its slug, <Name>Piece
  // assembles one piece with SlugOfAppend, and <Name>SlugOf assembles the
  // line.  Each step is kept small because evaluating a slug on a longer
  // literal is beyond the verifier's budget.

  lemma ReadabilityChunks0a()
    ensures SlugOf("Read") == "read"
    ensures SlugOf("abil") == "abil"
  {
  }

  lemma ReadabilityChunks0b()
    ensures SlugOf("ity ") == "ity-"
  {
  }

  lemma ReadabilityPieces0()
    ensures "Readability " == "Read" + "abil" + "ity "
    ensures "read" + "abil" + "ity-" == "readability-"
  {
  }

  lemma ReadabilityPiece0(p: string)
    requires p == "Readability "
    ensures SlugOf(p) == "readability-"
  {
    ReadabilityPieces0();
    ReadabilityChunks0a();
    ReadabilityChunks0b();
    SlugOfAppend("Read", "abil");
    SlugOfAppend("Read" + "abil", "ity ");
  }

  lemma ReadabilityChunks1a()
    ensures SlugOf("coun") == "coun"
    ensures SlugOf("ts.") == "ts"
  {
  }

  lemma ReadabilityPieces1()
    ensures "counts." == "coun" + "ts."
    ensures "coun" + "ts" == "counts"
  {
  }

  lemma ReadabilityPiece1(p: string)
    requires p == "counts."
    ensures SlugOf(p) == "counts"
  {
    ReadabilityPieces1();
    ReadabilityChunks1a();
    SlugOfAppend("coun", "ts.");
  }

  lemma ReadabilitySlugOf(line: string)
    requires line == "Readability " + "counts."
    ensures SlugOf(line) == "readability-" + "counts"
  {
    ReadabilityPiece0("Readability ");
    ReadabilityPiece1("counts.");
    SlugOfAppend("Readability ", "counts.");
  }

  lemma NamespacesChunks0a()
    ensures SlugOf("Name") == "name"
    ensures SlugOf("spac") == "spac"
  {
  }

  lemma NamespacesChunks0b()
    ensures SlugOf("es a") == "es-a"
    ensures SlugOf("re ") == "re-"
  {
  }

  lemma NamespacesPieces0()
    ensures "Namespaces are " == "Name" + "spac" + "es a" + "re "
    ensures "name" + "spac" + "es-a" + "re-" == "namespaces-are-"
  {
  }

  lemma NamespacesPiece0(p: string)
    requires p == "Namespaces are "
    ensures SlugOf(p) == "namespaces-are-"
  {
    NamespacesPieces0();
    NamespacesChunks0a();
    NamespacesChunks0b();
    SlugOfAppend("Name", "spac");
    SlugOfAppend("Name" + "spac", "es a");
    SlugOfAppend("Name" + "spac" + "es a", "re ");
  }

  lemma NamespacesChunks1a()
    ensures SlugOf("one ") == "one-"
    ensures SlugOf("honk") == "honk"
  {
  }

  lemma NamespacesChunks1b()
    ensures SlugOf("ing ") == "ing-"
  {
  }

  lemma NamespacesPieces1()
    ensures "one honking " == "one " + "honk" + "ing "
    ensures "one-" + "honk" + "ing-" == "one-honking-"
  {
  }

  lemma NamespacesPiece1(p: string)
    requires p == "one honking "
    ensures SlugOf(p) == "one-honking-"
  {
    NamespacesPieces1();
    NamespacesChunks1a();
    NamespacesChunks1b();
    SlugOfAppend("one ", "honk");
    SlugOfAppend("one " + "honk", "ing ");
  }

  lemma NamespacesChunks2a()
    ensures SlugOf("grea") == "grea"
    ensures SlugOf("t id") == "t-id"
  {
  }

  lemma NamespacesChunks2b()
    ensures SlugOf("ea -") == "ea-"
    ensures SlugOf("- ") == "-"
  {
  }

  lemma NamespacesPieces2()
    ensures "great idea -- " == "grea" + "t id" + "ea -" + "- "
    ensures "grea" + "t-id" + "ea-" + "-" == "great-idea--"
  {
  }

  lemma NamespacesPiece2(p: string)
    requires p == "great idea -- "
    ensures SlugOf(p) == "great-idea--"
  {
    NamespacesPieces2();
    NamespacesChunks2a();
    NamespacesChunks2b();
    SlugOfAppend("grea", "t id");
    SlugOfAppend("grea" + "t id", "ea -");
    SlugOfAppend("grea" + "t id" + "ea -", "- ");
  }

  lemma NamespacesChunks3a()
    ensures SlugOf("let'") == "let"
    ensures SlugOf("s do") == "s-do"
  {
  }

  lemma NamespacesChunks3b()
    ensures SlugOf(" mor") == "-mor"
    ensures SlugOf("e ") == "e-"
  {
  }

  lemma NamespacesPieces3()
    ensures "let's do more " == "let'" + "s do" + " mor" + "e "
    ensures "let" + "s-do" + "-mor" + "e-" == "lets-do-more-"
  {
  }

  lemma NamespacesPiece3(p: string)
    requires p == "let's do more "
    ensures SlugOf(p) == "lets-do-more-"
  {
    NamespacesPieces3();
    NamespacesChunks3a();
    NamespacesChunks3b();
    SlugOfAppend("let'", "s do");
    SlugOfAppend("let'" + "s do", " mor");
    SlugOfAppend("let'" + "s do" + " mor", "e ");
  }

  lemma NamespacesChunks4a()
    ensures SlugOf("of t") == "of-t"
    ensures SlugOf("hose") == "hose"
  {
  }

  lemma NamespacesChunks4b()
    ensures SlugOf("!") == ""
  {
  }

  lemma NamespacesPieces4()
    ensures "of those!" == "of t" + "hose" + "!"
    ensures "of-t" + "hose" + "" == "of-those"
  {
  }

  lemma NamespacesPiece4(p: string)
    requires p == "of those!"
    ensures SlugOf(p) == "of-those"
  {
    NamespacesPieces4();
    NamespacesChunks4a();
    NamespacesChunks4b();
    SlugOfAppend("of t", "hose");
    SlugOfAppend("of t" + "hose", "!");
  }

  lemma NamespacesSlugOf(line: string)
    requires line == "Namespaces are " + "one honking " + "great idea -- " + "let's do more " + "of those!"
    ensures SlugOf(line) == "namespaces-are-" + "one-honking-" + "great-idea--" + "lets-do-more-" + "of-those"
  {
    NamespacesPiece0("Namespaces are ");
    NamespacesPiece1("one honking ");
    NamespacesPiece2("great idea -- ");
    NamespacesPiece3("let's do more ");
    NamespacesPiece4("of those!");
    SlugOfAppend("Namespaces are ", "one honking ");
    SlugOfAppend("Namespaces are " + "one honking ", "great idea -- ");
    SlugOfAppend("Namespaces are " + "one honking " + "great idea -- ", "let's do more ");
    SlugOfAppend("Namespaces are " + "one honking " + "great idea -- " + "let's do more ", "of those!");
  }

  /** Generate.py line 14: the full stop is deleted and the space becomes
      `-`. */
  lemma ReadabilitySlug()
    ensures Slugify(Lines[6]) == "readability-" + "counts"
  {
    ReadabilitySlugOf(Lines[6]);
    SlugifyIsSinglePass(Lines[6]);
  }

  /** Generate.py line 26: the `--`, the apostrophe and the `!` are deleted,
      and the two spaces around `--` become a double `-`. */
  lemma NamespacesSlug()
    ensures Slugify(Lines[18]) == "namespaces-are-" + "one-honking-" + "great-idea--" + "lets-do-more-" + "of-those"
  {
    NamespacesSlugOf(Lines[18]);
    SlugifyIsSinglePass(Lines[18]);
  }
}
