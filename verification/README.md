# zen-of-python: slugs, registry and write plan

`generate.py` turns the nineteen aphorisms of the Zen of Python into a small
static site. It does three things:

1. It derives a **slug** from each line. The line is lower-cased, every
   character matched by the regular expression `['.-\\*-\\!]` is deleted,
   and every space becomes `-`.
2. It builds an `OrderedDict` **registry** from slug to line, assigning
   `lines_dict[slug] = line` for each line in input order.
3. It writes one `output/<slug>.html` page per registry entry, in registry
   order, and then `output/index.html`, which lists the whole registry.

The model has four modules:

- `Slug` (`slug.dfy`): the slug expression is written as the source
  composes it (`Lower`, `Strip`, `Hyphenate`). It is also written as an
  independent single-pass definition (`SlugOf`), and the two are proved equal.
- `Registry` (`registry.dfy`): an insertion-ordered dictionary
  `OrderedMap(keys, values)` with its invariant. It has assignment (`Insert`),
  the left fold that the build loop performs (`Assign`, `Build`), and the loop
  itself as a method (`BuildRegistry`). The lemmas cover:
  - key order, which is the order of first occurrence;
  - the last write winning;
  - distinctness;
  - size.
- `Plan` (`plan.dfy`): the write phase as a pure sequence of
  `Write(path, payload)` values.
  - Rendering stays abstract. A payload is `LinePage(line)` or
    `IndexPage(registry)`.
  - `Execute` gives the files one run writes, which is what `output/`
    holds afterwards when it starts empty. Opening with `'w'` truncates, so
    a later write to a path replaces an earlier one.
  - `ExecuteFrom` starts from whatever `output/` held before. The script
    deletes nothing, so files from an earlier run that this run does not
    write stay as they were. A second run on the same lines leaves the
    directory exactly as the first run left it.
- `Zen` (`zen.dfy`): the fixed input list. It proves two things:
  - on that list the registry has nineteen entries in input order and the
    script writes twenty different files;
  - the slugs of generate.py:14 and generate.py:26 come out as
    `readability-counts` and
    `namespaces-are-one-honking-great-idea--lets-do-more-of-those`.

Read as a list, the pattern `['.-\\*-\\!]` of generate.py:28 looks like
the six characters `' . - \ * !`. Python's `re` reads it differently: each
`-` between two characters makes a range. So the class is:

- the apostrophe;
- the range `.`..`\`;
- the range `*`..`\`;
- `!`.

Together that is `'`, `!` and every character from `*` (0x2A) to `\`
(0x5C). That range holds `, - . /`, the digits, `: ; < = > ? @`, the
upper-case letters and `[`. The model follows this reading. For the
nineteen fixed lines, the only characters it deletes beyond the six are the
commas of lines 19, 24 and 25 of `generate.py`. Upper-case letters are
lower-cased before the class applies, so they are not lost.

## Model

| member | source | states |
|---|---|---|
| Slug.Removed | generate.py:28 | the character class as `re` parses it: the apostrophe, `!`, and the ranges `.`..`\` and `*`..`\` |
| Slug.RemovedClass | generate.py:28 | the class is exactly `'`, `!` and every character from `*` to `\`; it holds `, - . / 0 @`; lower-case letters and the space are not in it |
| Slug.Lower | generate.py:31 | `line.lower()` on ASCII: same length, each character lower-cased in place |
| Slug.Strip | generate.py:28-31 | `regex.sub('', ...)`: the result is the input minus the class characters, so its length drops by their count; it keeps every character outside the class and contains nothing else |
| Slug.Hyphenate | generate.py:31 | `.replace(' ', '-')`: same length, spaces become `-` position by position, everything else is kept |
| Slug.Slugify | generate.py:28-31 | the slug holds no space and no class character other than `-`; its length is the line's length minus the class characters of the lower-cased line; it has exactly as many `-` as the line has spaces; turning each `-` back into a space gives the lower-cased, stripped line |
| Slug.SlugifyIsSinglePass | generate.py:31 | the three-step expression equals the character-by-character definition `SlugOf`: lower-case each character, then drop it, turn it into `-` or keep it |
| Slug.SlugCollision | generate.py:31-32 | two lines share a slug, and so a registry key, exactly when they agree after lower-casing and stripping |
| Slug.UnhyphenateHyphenate | generate.py:31 | on text without `-`, hyphenation can be undone, so no information is lost at that step |
| Slug.HyphenateCount | generate.py:31 | on text without `-`, hyphenation yields exactly one `-` per space |
| Slug.StripCount | generate.py:28-31 | stripping keeps every occurrence of a character outside the class |
| Slug.SlugOfAppend | generate.py:31 | the slug of a concatenation is the concatenation of the slugs |
| Slug.SlugOfPrefix | generate.py:31 | the slug of a prefix of a line is a prefix of the line's slug |
| Slug.SlugsDiverge | generate.py:31 | two lines that share a prefix and then continue with two characters that survive the expression differently have different slugs |
| Registry.Empty | generate.py:29 | `collections.OrderedDict()` is a valid dictionary with no keys |
| Registry.Insert | generate.py:32 | `d[key] = value` binds `key` to `value` and leaves every other binding alone; the key order grows by one exactly when the key is new |
| Registry.InsertValid | generate.py:32 | assignment keeps the dictionary invariant; existing keys keep their positions (the old order is a prefix of the new); a new key goes last |
| Registry.InsertOverwrites | generate.py:32 | assigning twice to one key is the same as assigning the second value once |
| Registry.Assign | generate.py:30-32 | the fold of assignments has exactly the assigned keys and at most one entry per assignment |
| Registry.AssignValid | generate.py:29-32 | every dictionary built by the loop satisfies the invariant: distinct keys, and the key order lists exactly the map's keys |
| Registry.AssignKeyOrder | generate.py:29-32 | the key order is the order of first occurrence in the input |
| Registry.AssignLastWins | generate.py:32 | each key holds the value paired with its last occurrence in the input |
| Registry.AssignDistinct | generate.py:29-32 | the registry has one entry per line, and its key order is the input's slug sequence, exactly when the slugs are pairwise distinct |
| Registry.AssignDistinctValues | generate.py:29-32 | with distinct slugs, each slug is bound to its own line |
| Registry.DistinctSnoc | generate.py:32 | appending a key keeps the order duplicate-free exactly when the key is new |
| Registry.ValidSize | generate.py:29-32 | a valid dictionary has as many bindings as listed keys |
| Registry.Slugs | generate.py:30-31 | the slug of every line, in input order: entry i is the slug of line i |
| Registry.Build | generate.py:29-32 | the registry the loop builds has at most as many entries as there are lines, and its keys are exactly the slugs of the lines |
| Registry.BuildRegistry | generate.py:29-32 | the loop as written (one assignment per line, in order) produces the fold; the result is valid, and its keys are exactly the slugs of the lines |
| Plan.PagePath | generate.py:39 | `'output/{}.html'.format(stem)` is `output/`, then the stem unchanged, then `.html` |
| Plan.StemOfPagePath | generate.py:39 | `StemOf` recovers the stem from a page path, and every path with a stem is that stem's page path |
| Plan.PagePathInjective | generate.py:39 | two stems give the same file exactly when they are equal |
| Plan.IndexIsPagePath | generate.py:39-44 | `output/index.html` is the page path of the stem `index` |
| Plan.LineWrites | generate.py:38-40 | one write per key, in key order: write i goes to key i's page and carries key i's line |
| Plan.WritePlan | generate.py:38-45 | there is one more write than there are keys; write i has stem key i and carries that key's line; the last write is the index page carrying the whole registry |
| Plan.Generate | generate.py:29-45 | the whole script makes at least one and at most one-more-than-the-lines writes, and the index comes last |
| Plan.SlugHasNoSeparator | generate.py:28-31 | no slug contains `/` or `\` |
| Plan.PagePathInOutputDir | generate.py:39 | a stem without separators names a file directly inside `output/` |
| Plan.GenerateInOutputDir | generate.py:28-45 | for every input, every file the script writes lies directly inside `output/` |
| Plan.WritePlanInOutputDir | generate.py:38-45 | when no key holds a separator, every planned file lies directly inside `output/` |
| Plan.BuildKeysHaveNoSeparator | generate.py:29-32 | no registry key holds a path separator |
| Plan.Execute | generate.py:38-45 | the files one run writes, with truncating `open(..., 'w')`: every written path is present, and only written paths are |
| Plan.ExecuteIsAssign | generate.py:38-45 | running the writes in order leaves the same path-to-payload map as assigning payloads to paths in a dictionary |
| Plan.ExecuteLastWins | generate.py:38-45 | among the files one run writes, a path is present exactly when some write names it, and it holds the payload of the last write that does |
| Plan.ExecuteFromOverlay | generate.py:38-45 | running the writes on a directory that already holds files gives the old files overlaid with the run's own files: nothing is deleted |
| Plan.StaleFilesSurvive | generate.py:38-45 | a file the run does not write keeps its old content, and the run adds only the paths it writes |
| Plan.RerunIdempotent | generate.py:38-45 | running the same writes a second time leaves the directory as one run left it |
| Plan.GenerateIdempotent | generate.py:29-45 | running the script twice on the same lines leaves `output/` as one run does, whatever it held before |
| Plan.LinePathsDistinct | generate.py:38-40 | the line pages of a valid registry go to pairwise different paths |
| Plan.PlanPathsDistinct | generate.py:38-45 | no path is written twice exactly when no slug is `index` |
| Plan.IndexWritten | generate.py:43-45 | of the files the run writes, `output/index.html` holds the registry listing |
| Plan.LinePagesWritten | generate.py:38-45 | among the files the run writes, every slug other than `index` has its page, holding the line last registered under it |
| Plan.PlannedPath | generate.py:38-45 | every write of the plan goes to the index or to the page of a registry key |
| Plan.OnlyPlannedFiles | generate.py:38-45 | the run writes nothing but the index and the pages of registry keys |
| Plan.FilesSize | generate.py:38-45 | the run writes one file per key, plus the index unless a key is `index` |
| Plan.FilesWritten | generate.py:38-45 | the files one run writes, which is all of `output/` when it starts empty: the index page lists the registry; every slug other than `index` has its page holding the line last registered under it; no other file is written; the file count is the key count plus one, or the key count when a slug is `index` |
| Plan.RunOverDirectory | generate.py:38-45 | `output/` after a run over any earlier contents: the index and every page of a slug other than `index` hold what this run wrote; besides them only the earlier files remain, unchanged |
| Zen.ZenSignatures | generate.py:7-31 | each of the 19 slugs starts with three characters that only the slugs of lines with the same opening words share |
| Zen.DistinctBySignature | generate.py:7-31 | nineteen slugs with those heads, where the lines sharing a head are told apart, are pairwise distinct |
| Zen.PracticalityThatDiffer | generate.py:16-21 | the "Although practicality" and "Although that" lines have different slugs |
| Zen.PracticalityNeverDiffer | generate.py:16-23 | the "Although practicality" and "Although never" lines have different slugs |
| Zen.ThatNeverDiffer | generate.py:21-23 | the "Although that" and "Although never" lines have different slugs |
| Zen.HardEasyDiffer | generate.py:24-25 | the "hard to explain" and "easy to explain" lines have different slugs |
| Zen.ZenSlugsDistinct | generate.py:7-31 | the nineteen slugs are pairwise distinct |
| Zen.ZenRegistry | generate.py:7-32 | the registry has exactly nineteen entries; its keys are the slugs in input order, and each is bound to its own line |
| Zen.NotASlug | generate.py:7-31 | a string whose head belongs to no Zen slug is not a Zen slug |
| Zen.ZenNoIndexSlug | generate.py:7-32 | no line has the slug `index` |
| Zen.ZenWrites | generate.py:7-45 | twenty writes: line i's page carries line i, in input order, and the index comes last; all paths differ, so the run writes twenty files |
| Zen.ReadabilitySlug | generate.py:14 | "Readability counts." has the slug `readability-counts` |
| Zen.NamespacesSlug | generate.py:26 | the last line has the slug `namespaces-are-one-honking-great-idea--lets-do-more-of-those`: the `--`, the apostrophe and the `!` are deleted, and the spaces around `--` give a double `-` |

## Left out

- jinja2 (`Environment`, `FileSystemLoader`, `get_template`, `render`,
  generate.py:4, 34, 37, 40, 43, 45) is a library whose source is not part of
  this model. A rendered page is represented by what it is rendered from: the
  line, or the whole registry. A missing template is not modelled.
- File I/O: opening, writing and closing files, and errors such as a missing
  `output/` directory (generate.py:39-40, 44-45). The directory is a map from
  path to payload. The model states which paths are written, in which
  order, with what, and what the directory holds afterwards.
- Slug.Lower: lower-cases ASCII `A`..`Z` only. Python's `str.lower()`
  follows full Unicode and can change the length of non-ASCII text. Every
  fixed input line is ASCII.
- Slug.Strip: models only the one character class of generate.py:28 as a
  character predicate, not regular-expression matching in general.
- The fixed list `Lines`: each line is written as a concatenation of short string
  literals, split between words. The value is the same text as the source
  list. This form only keeps the proofs about individual characters cheap.
- The expected slugs of generate.py:14 and generate.py:26 are also written
  as concatenations of short literals, for the same reason. The proofs about
  the fixed lines are split into many small lemmas (one per line for the
  first three characters of the slug, and chunks of at most four characters
  for the two full slugs) because the verifier evaluates a slug on a string
  literal only a few characters at a time.
