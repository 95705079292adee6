# sort-files, modelled in Dafny

`sort-files.py` tidies a directory (by default `~/Documents` and
`~/Downloads`). It moves every loose regular file into the category
subdirectory its name calls for, such as `images`, `reports` or
`installers`, but only when that subdirectory already exists. It never
overwrites a file: a name already taken in the subdirectory becomes
`stem_1.suffix`, `stem_2.suffix` and so on. It also counts the files per
category. A dry run only counts.

This project models three parts of it:

- **The classifier** (modules `Classifier`, `Patterns`, `Paths`, `Text`).
  - The extension tables.
  - The ordered PDF rules and the conference-paper pattern, written out as predicates instead of a regex engine.
  - The extension a name yields, following `Path.suffix`, then `lstrip(".")`, then `lower()`.
  - The chain that asks the extension tables first and the name heuristics second.
  - Everything is a pure function. The properties are lemmas: first match wins, which extensions depend on the downloads flag, exactly which names stay unclassified, and the order of the PDF decision.
- **Collision-free naming** (module `Collision`).
  - `resolve_collision` is a method with a loop.
  - It is proved to return the proposed name when that name is free. Otherwise it returns the candidate with the least free counter. That answer is unique.
- **The per-directory pass** (module `Mover`).
  - `process_directory` is a method of class `Folder`, which holds the regular files of the directory and the names held by each subdirectory.
  - The pass is proved against specification functions:
    - `Tally` gives the counts.
    - `Moved` gives the names moved.
    - `Destinations` gives where each name goes.
  - The proof also shows that a dry run changes nothing and returns the counts of the real run.
  - In a real run, moved files leave the directory. Each subdirectory keeps every name it had and gains exactly one new name per file counted for it. No subdirectory is created.

The bookkeeping functions (`Tally`, `CountOf`, `Moved`, `Kept`) take an arbitrary assignment of destinations to names. `Destinations` is the assignment the pass actually uses.

The tables are constants of module `Classifier`, kept in the source's order:
- `ExtensionMap` is `EXTENSION_MAP` (sort-files.py:13-20).
- `DownloadsOnlyExtensions` is `DOWNLOADS_ONLY_EXTENSIONS` (sort-files.py:22-24).
- `AmbiguousExtensions` is `AMBIGUOUS_EXTENSIONS` (sort-files.py:26).
- `PdfRules` is `PDF_RULES`, each rule with its pattern's alternatives (sort-files.py:29-36).

The lemmas `ImagesApart` through `AmbiguousElsewhere` below state the facts about these tables that the classifier relies on.

## Model

| member | source | states |
|---|---|---|
| `Text.Lower` | sort-files.py:64 | `str.lower()` over ASCII: same length, every character lowered, no capital left, non-capitals untouched |
| `Text.LowerKeepsLowercase` | sort-files.py:100 | a string without capitals is its own lower case |
| `Text.RFind` | sort-files.py:100 | `rfind`: -1 or an index holding the character, with no occurrence after it |
| `Text.LStrip` | sort-files.py:100 | `lstrip(c)`: a suffix of the input not starting with `c`, everything removed being `c` |
| `Text.Decimal` | sort-files.py:86 | the rendering of the counter is a non-empty string of digits with no leading zero, and "0" for zero |
| `Text.LeadingDigitPositive` | sort-files.py:86 | a digit string not starting with `0` stands for a positive number |
| `Text.CanonicalIsDecimal` | sort-files.py:86 | every digit string without a leading zero is the rendering of its own value, so `f"{n}"` is the one such string for `n` |
| `Text.DecimalRoundTrip` | sort-files.py:86 | reading the rendered counter back gives the counter |
| `Text.DecimalInjective` | sort-files.py:86 | distinct counters render differently |
| `Paths.Stem` | sort-files.py:81 | `Path.stem`: the name up to its suffix dot, or the whole name without a suffix; `StemAndSuffix` and `SuffixAtDot` prove which text it is |
| `Paths.ExtensionOf` | sort-files.py:100 | `suffix.lstrip(".").lower()`; `ExtensionAfterDot` proves it is the lowered text after the suffix dot |
| `Paths.Suffix` | sort-files.py:82 | `Path.suffix` is empty or a dot followed by at least one character, with no other dot |
| `Paths.StemAndSuffix` | sort-files.py:81-82 | stem followed by suffix is the name |
| `Paths.SuffixAtDot` | sort-files.py:100 | the suffix is non-empty iff the last dot is neither first nor last, and then starts at that dot |
| `Paths.ExtensionAfterDot` | sort-files.py:100 | the extension is the lowered text after the suffix dot; it is empty iff there is no suffix; it holds no dot |
| `Paths.StripOneDot` | sort-files.py:100 | on a suffix, `lstrip(".")` removes exactly the leading dot |
| `Paths.ExtensionIsRest` | sort-files.py:100 | without capitals after the suffix dot, the extension is the text after it |
| `Patterns.MatchesAt` | sort-files.py:30-35 | one alternative, made of literal characters and `.` (any character but a newline), matches at a position |
| `Patterns.Search` | sort-files.py:58 | `pattern.search(name_lower)` for an alternation; `SearchIsOccurs` proves it decides an occurrence anywhere |
| `Patterns.ConferencePaper` | sort-files.py:55 | `CONFERENCE_PAPER_RE.match` by greedy runs; `ConferencePaperIsShape` proves it equal to the pattern's meaning |
| `Patterns.AnyMatchAt` | sort-files.py:58 | true iff some alternative matches at the position |
| `Patterns.SearchFromFinds` | sort-files.py:58 | the position-by-position scan succeeds iff some alternative matches at some later position |
| `Patterns.SearchIsOccurs` | sort-files.py:58 | `Search` decides `re.search` of an alternation: some alternative occurs somewhere |
| `Patterns.MissingCharRulesOut` | sort-files.py:30-35 | no alternative occurs when each holds a literal character absent from the text |
| `Patterns.LetterRunEnd` | sort-files.py:38 | the end of the longest `[a-z]` run from a position |
| `Patterns.NameRunEnd` | sort-files.py:38 | the end of the longest `[a-z']` run from a position |
| `Patterns.LetterRunEndAt` | sort-files.py:38 | a letter run stopped by a non-letter is the longest one |
| `Patterns.NameRunEndAt` | sort-files.py:38 | a `[a-z']` run stopped by another character is the longest one |
| `Patterns.ShapeIsConferencePaper` | sort-files.py:38 | every way the pattern can match is found by the greedy scan |
| `Patterns.ConferencePaperIsShape` | sort-files.py:55 | `ConferencePaper` holds iff `^[a-z]+ [a-z']+_.+` matches at the start of the name |
| `Classifier.FirstOwner` | sort-files.py:42-44 | the table scan returns `None` iff no bucket owns the extension, else the category of the first owning bucket |
| `Classifier.ImagesApart` | sort-files.py:14-19 | the image extensions share nothing with the other buckets |
| `Classifier.VideosApart` | sort-files.py:15-19 | the video extensions share nothing with the later buckets |
| `Classifier.DocumentFormatsApart` | sort-files.py:16-19 | the remaining buckets of the universal table are pairwise disjoint |
| `Classifier.InstallerImagesApart` | sort-files.py:13-24 | the downloads-only extensions are in no bucket of the universal table |
| `Classifier.AmbiguousApartFromMedia` | sort-files.py:13-26 | the ambiguous extensions are not images, videos or presentations |
| `Classifier.AmbiguousApartFromFiles` | sort-files.py:13-26 | the ambiguous extensions are not data exports, certificates and keys, e-books or installer images |
| `Classifier.NoEmptyExtension` | sort-files.py:13-24 | no table owns the empty extension |
| `Classifier.ExtensionMapIsPartition` | sort-files.py:13-20 | no extension belongs to two categories |
| `Classifier.InstallerImageElsewhere` | sort-files.py:22-26 | an installer image is neither universal nor ambiguous |
| `Classifier.AmbiguousElsewhere` | sort-files.py:13-26 | an ambiguous extension is owned by no table |
| `Classifier.FirstOwnerIsOwner` | sort-files.py:42-44 | in a partition the scan returns the one owner |
| `Classifier.ClassifyByExtension` | sort-files.py:41-51 | `classify_by_extension`: universal table first, the downloads-only table only in downloads, `None` otherwise; `ByExtensionNone` and `UniversalExtensionWins` state its outcome |
| `Classifier.FirstRule` | sort-files.py:57-60 | the loop over the PDF rules with its `work-docs` fallback; `FirstRuleIsFirstHit` states its result |
| `Classifier.ClassifyPdf` | sort-files.py:54-60 | `classify_pdf`: the conference pattern in downloads, then the rules; `PdfDecisionOrder` states its result |
| `Classifier.ClassifyByName` | sort-files.py:63-75 | `classify_by_name` on the lowered name; `ByNameNone`, `DocumentsAndText`, `ZipOnlyInDownloads` and `PdfAlwaysClassified` state its outcome |
| `Classifier.Classify` | sort-files.py:100-108 | the chain: extension, then tables, then name heuristics; `UnclassifiedIff` says exactly when it gives `None` |
| `Classifier.FirstRuleIsFirstHit` | sort-files.py:57-60 | the rule scan returns the category of the first rule whose pattern occurs, and `work-docs` when none does |
| `Classifier.NoSuffixUnclassified` | sort-files.py:100-102 | a name without a suffix gets no category |
| `Classifier.UniversalExtensionWins` | sort-files.py:41-44 | an extension of the universal table gives its owner, whatever the flag and the rest of the name |
| `Classifier.InstallerImagesOnlyInDownloads` | sort-files.py:45-48 | `dmg`, `msi` and `pkg` are `installers` in downloads and unclassified elsewhere |
| `Classifier.ZipOnlyInDownloads` | sort-files.py:73-75 | `zip` is `installers` in downloads and unclassified elsewhere |
| `Classifier.DocumentsAndText` | sort-files.py:67-72 | `docx`, `doc` and `rtf` always give `work-docs`; `html`, `md` and `txt` always give `reference` |
| `Classifier.UnclassifiedIff` | sort-files.py:100-108 | a name is unclassified iff its extension is empty, or in no applicable table and without a name rule in this mode |
| `Classifier.ByExtensionNone` | sort-files.py:41-51 | the table lookup gives nothing iff no applicable table owns the extension |
| `Classifier.ByNameNone` | sort-files.py:63-75 | the name heuristics give nothing iff the extension is not ambiguous, or is `zip` outside downloads |
| `Classifier.PdfAlwaysClassified` | sort-files.py:63-66 | a PDF always gets the category `classify_pdf` gives its lowered name |
| `Classifier.PdfDecisionOrder` | sort-files.py:54-60 | conference pattern first, and only in downloads; then the first rule that occurs; then `work-docs` |
| `Classifier.PdfExtension` | sort-files.py:100 | a name ending in `.pdf` after its last dot has extension `pdf` |
| `Classifier.AliceShape` | sort-files.py:38 | `alice smith_thesis.pdf` matches the conference pattern |
| `Classifier.ConferencePaperExample` | sort-files.py:55-56 | `alice smith_thesis.pdf` in downloads is a conference paper |
| `Classifier.TrainingHit` | sort-files.py:30 | `training-report-guide.pdf` matches the first PDF rule |
| `Classifier.TrainingAlsoLater` | sort-files.py:31-32 | the reports rule (`report`) and the e-books rule (`guide`) also occur in `training-report-guide.pdf` |
| `Classifier.RuleOrderExample` | sort-files.py:57-59 | the reports and e-books rules occur in `training-report-guide.pdf`, yet it gets the first rule's category, `training` |
| `Classifier.RandomNameMissesEveryRule` | sort-files.py:29-36 | no PDF rule occurs in `random_file.pdf` |
| `Classifier.FallbackExample` | sort-files.py:60 | `random_file.pdf` falls back to `work-docs` |
| `Classifier.ZipExample` | sort-files.py:73-75 | `archive.zip` is `installers` in downloads and unclassified elsewhere |
| `Classifier.UpperCaseExtensionExample` | sort-files.py:100 | `Photo.PNG` is an image: the extension is lowered before lookup |
| `Collision.Candidate` | sort-files.py:86 | `f"{stem}_{counter}{suffix}"`; `CandidateInjective` and `CandidateIsNew` state its properties |
| `Collision.CandidateInjective` | sort-files.py:86 | distinct counters give distinct candidate names |
| `Collision.CandidateIsNew` | sort-files.py:86 | a candidate never equals the proposed name |
| `Collision.ResolutionIsUnique` | sort-files.py:78-89 | at most one name satisfies `Resolves`; `ResolveCollision` returns it |
| `Collision.ResolveCollision` | sort-files.py:78-89 | returns a free name: the proposed one iff it is free, else the candidate with the least free counter from 1 |
| `Collision.PhotoExample` | sort-files.py:78-89 | with `photo.png` and `photo_1.png` taken, `photo.png` becomes `photo_2.png` |
| `Mover.Hidden` | sort-files.py:97 | `name.startswith(".")` |
| `Mover.Target` | sort-files.py:97-112 | where a listed name goes: nowhere unless it is a visible regular file whose category exists and has a subdirectory; `MovedIff`, `LeftInPlace` and `CountsOnlySubdirectories` state the consequences |
| `Mover.Tally` | sort-files.py:94-124 | the counts the pass returns; `TallyCounts` ties them to an independent count per category |
| `Mover.Moved` | sort-files.py:96-120 | the names the pass moves; `MovedIff` characterises them |
| `Mover.Bump` | sort-files.py:124 | `counts[category] += 1` raises that count by one, adds its key, and changes no other count |
| `Mover.CountOfLast` | sort-files.py:96-124 | counting from either end of the listing gives the same number |
| `Mover.TallyCounts` | sort-files.py:124 | each returned count is the number of listed names sent to that category; a category appears iff it received one |
| `Mover.CountedWereSent` | sort-files.py:124 | a counted category received some listed name |
| `Mover.CountsOnlySubdirectories` | sort-files.py:110-112 | only categories whose subdirectory exists are counted |
| `Mover.MovedIff` | sort-files.py:96-120 | a name is moved iff it is listed and has a destination |
| `Mover.MovedAreFiles` | sort-files.py:97 | only regular files of the directory are moved |
| `Mover.LeftInPlace` | sort-files.py:97-112 | hidden files, unclassified names and names whose subdirectory is missing stay put |
| `Mover.Kept` | sort-files.py:97-112 | the names kept all have a destination |
| `Mover.SkippedLeaveNoTrace` | sort-files.py:97-112 | skipped names change neither the counts nor the moves |
| `Mover.Step` | sort-files.py:96-124 | one more name extends the counts and the moves by that name alone, and the name was not moved before |
| `Mover.GrownByOne` | sort-files.py:114-120 | moving one file under a fresh name keeps the subdirectories in step with the counts |
| `Mover.NextUntouched` | sort-files.py:96-97 | earlier moves do not change how the next listed name is judged |
| `Mover.Advance` | sort-files.py:96-124 | one iteration keeps the pass's invariant |
| `Mover.Folder.Move` | sort-files.py:120 | the file leaves the directory and its new name joins the subdirectory |
| `Mover.Folder.SortOne` | sort-files.py:97-122 | one name: skipped, or resolved to a fresh name in its existing category subdirectory, and moved unless dry run |
| `Mover.Folder.Visit` | sort-files.py:96-124 | one iteration, handling and counting a name, keeps the pass's invariant |
| `Mover.Folder.SortFiles` | sort-files.py:92-126 | returns `Tally`; a dry run changes nothing; a real run removes exactly the moved files, creates no subdirectory, and grows each subdirectory by its count without losing a name |
| `Mover.DryRunMatchesRealRun` | sort-files.py:116-124 | a dry run returns the counts of the real run, and each counts the names sent to its category |
| `Mover.PhotoIsImage` | sort-files.py:14 | `photo.png` is an image, in the downloads directory and elsewhere |
| `Mover.TallySnoc` | sort-files.py:96-124 | appending a name to the listing extends the counts and the moves by that name alone |
| `Mover.StayThenGo` | sort-files.py:96-124 | a name that stays, then one that goes: one count, one move |
| `Mover.SubdirectoryStays` | sort-files.py:97 | a name that is not a regular file stays put, in either mode |
| `Mover.PhotoGoes` | sort-files.py:110-112 | `photo.png` goes to an existing `images` subdirectory |
| `Mover.ScenarioOutcome` | sort-files.py:96-124 | the listing `images`, `photo.png` counts one image and moves the photo |
| `Mover.PhotoScenario` | sort-files.py:110-124 | a photo whose name is taken in `images` moves in beside the old one, leaving no loose file |

## Left out

- `main`: argument parsing, the `SystemExit` on a bad directory, and the sum of counts over several directories (sort-files.py:143-168). This is command-line plumbing.
- `print_summary` and every `print`, including the `verbose` messages (sort-files.py:118, 122, 129-140). They only format output, so the pass takes no `verbose` flag.
- `Path.home()` and the directory test against `DOWNLOADS_DIR` (sort-files.py:10-11, 93). They become the `isDownloads` parameter.
- `iterdir()` and `sorted()` are not modelled: the listing is an input. The proved properties hold for any order of it. A listing must name each entry once, as a directory listing does.
- `is_file()`, `is_dir()` and `exists()` are answered from the `Folder`'s sets. Symbolic links, permission errors and other processes changing the directory during the pass are not modelled.
- `shutil.move` is modelled as removing a name from the directory and adding its new name to the subdirectory. File contents, copying across filesystems and I/O failures are not modelled.
- `str.lower()` lowers only ASCII capitals. Python also lowers non-ASCII letters, which this model leaves unchanged.
- Only the fixed patterns of the source are modelled, not a general regular-expression engine.
- Paths are names within one directory. The parent part of a path is not modelled, because every candidate name shares it.
- Mover.Folder.SortFiles: states that each subdirectory keeps its names and gains exactly one new name per file counted for it. It does not say which names; `Mover.Folder.SortOne` states the name each file receives.
