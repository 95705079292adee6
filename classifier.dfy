/**
 * The classifier of sort-files.py: fixed extension tables, the ambiguous
 * extensions, the ordered PDF rules, and the chain that decides a file's
 * category from its name (sort-files.py:13-75, 100-108). Every answer is a
 * category or `None`; first match wins everywhere.
 */
module Classifier {
  import opened Wrappers
  import opened Text
  import opened Paths
  import opened Patterns

  /** One entry of an extension table: a category and the extensions it owns. */
  datatype Bucket = Bucket(category: string, extensions: set<string>)

  /** One PDF rule: a category and the alternatives of its pattern. */
  datatype Rule = Rule(category: string, alternatives: seq<string>)

  const Images: set<string> := {"png", "jpg", "jpeg", "svg", "webp", "heic", "gif"}
  const Videos: set<string> := {"mp4", "mov", "mkv", "mp3", "m4a", "wav"}
  const Presentations: set<string> := {"pptx", "ppt", "pot", "key"}
  const DataExports: set<string> := {"xlsx", "xls", "xlsm", "csv", "tsv", "json", "sqlite3", "iqy"}
  const CertsAndKeys: set<string> := {"pem", "asc", "cer", "crt", "p12", "pfx", "gpg"}
  const EbookFormats: set<string> := {"epub", "mobi"}
  const InstallerImages: set<string> := {"dmg", "msi", "pkg"}

  /** `EXTENSION_MAP`, in the dictionary's order (sort-files.py:13-20). */
  const ExtensionMap: seq<Bucket> := [
    Bucket("images", Images),
    Bucket("videos", Videos),
    Bucket("presentations", Presentations),
    Bucket("data-exports", DataExports),
    Bucket("certs-and-keys", CertsAndKeys),
    Bucket("ebooks", EbookFormats)
  ]

  /** `DOWNLOADS_ONLY_EXTENSIONS` (sort-files.py:22-24). */
  const DownloadsOnlyExtensions: seq<Bucket> := [
    Bucket("installers", InstallerImages)
  ]

  /** `AMBIGUOUS_EXTENSIONS` (sort-files.py:26). */
  const AmbiguousExtensions: set<string> := {"pdf", "docx", "doc", "rtf", "html", "md", "txt", "zip"}

  /** `PDF_RULES`, in order (sort-files.py:29-36). */
  const PdfRules: seq<Rule> := [
    Rule("training", ["cert", "certificate", "slides_", "course", "training", "sans", "cissp"]),
    Rule("reports", ["report", "pentest", "threat", "assessment", "analysis", "incident", "briefing", "whitepaper"]),
    Rule("ebooks", ["handbook", "guide", "book", "manual"]),
    Rule("templates", ["template"]),
    Rule("personal", ["receipt", "invoice", "bonus", "benefit", "insurance", "rental", "offer.letter", "rsu",
                      "disability", "salary"]),
    Rule("reference", ["cheatsheet", "cheat-sheet", "quickref", "checklist"])
  ]

  const WorkDocs := "work-docs"
  const Reference := "reference"
  const Installers := "installers"
  const ConferencePapers := "conference-papers"

  /** Some bucket of the table owns the extension. */
  ghost predicate Owned(table: seq<Bucket>, ext: string)
  {
    exists i :: 0 <= i < |table| && ext in table[i].extensions
  }

  /** No extension belongs to two buckets of the table. */
  ghost predicate Partition(table: seq<Bucket>)
  {
    forall i, j :: 0 <= i < j < |table| ==> table[i].extensions !! table[j].extensions
  }

  /** The scan `for category, extensions in table.items(): if ext in extensions: return category`. */
  function FirstOwner(table: seq<Bucket>, ext: string): (r: Option<string>)
    ensures r.None? <==> !Owned(table, ext)
    ensures r.Some? ==> exists i :: 0 <= i < |table| && ext in table[i].extensions &&
                                    r.value == table[i].category &&
                                    forall j :: 0 <= j < i ==> ext !in table[j].extensions
  {
    if table == [] then None
    else if ext in table[0].extensions then Some(table[0].category)
    else
      var r := FirstOwner(table[1..], ext);
      assert Owned(table, ext) ==> Owned(table[1..], ext) by {
        if Owned(table, ext) {
          var i :| 0 <= i < |table| && ext in table[i].extensions;
          assert ext in table[1..][i - 1].extensions;
        }
      }
      r
  }

  lemma ImagesApart()
    ensures Images !! Videos && Images !! Presentations && Images !! DataExports
    ensures Images !! CertsAndKeys && Images !! EbookFormats
  {
  }

  lemma VideosApart()
    ensures Videos !! Presentations && Videos !! DataExports && Videos !! CertsAndKeys && Videos !! EbookFormats
  {
  }

  lemma DocumentFormatsApart()
    ensures Presentations !! DataExports && Presentations !! CertsAndKeys && Presentations !! EbookFormats
    ensures DataExports !! CertsAndKeys && DataExports !! EbookFormats && CertsAndKeys !! EbookFormats
  {
  }

  lemma InstallerImagesApart()
    ensures InstallerImages !! Images && InstallerImages !! Videos && InstallerImages !! Presentations
    ensures InstallerImages !! DataExports && InstallerImages !! CertsAndKeys && InstallerImages !! EbookFormats
  {
  }

  lemma AmbiguousApartFromMedia()
    ensures AmbiguousExtensions !! Images && AmbiguousExtensions !! Videos && AmbiguousExtensions !! Presentations
  {
  }

  lemma AmbiguousApartFromFiles()
    ensures AmbiguousExtensions !! DataExports && AmbiguousExtensions !! CertsAndKeys
    ensures AmbiguousExtensions !! EbookFormats && AmbiguousExtensions !! InstallerImages
  {
  }

  /** No table holds the empty extension. */
  lemma NoEmptyExtension()
    ensures !Owned(ExtensionMap, "") && !Owned(DownloadsOnlyExtensions, "")
  {
    assert "" !in Images && "" !in Videos && "" !in Presentations;
    assert "" !in DataExports && "" !in CertsAndKeys && "" !in EbookFormats && "" !in InstallerImages;
  }

  /** Each universal extension has one owner. */
  lemma ExtensionMapIsPartition()
    ensures Partition(ExtensionMap)
  {
    ImagesApart();
    VideosApart();
    DocumentFormatsApart();
  }

  /** An installer image is owned by no universal bucket and is not
      ambiguous. */
  lemma InstallerImageElsewhere(ext: string)
    requires ext in InstallerImages
    ensures !Owned(ExtensionMap, ext) && ext !in AmbiguousExtensions
  {
    InstallerImagesApart();
    AmbiguousApartFromFiles();
  }

  /** An ambiguous extension is owned by no bucket of either table: only the
      name heuristics decide it. */
  lemma AmbiguousElsewhere(ext: string)
    requires ext in AmbiguousExtensions
    ensures !Owned(ExtensionMap, ext) && !Owned(DownloadsOnlyExtensions, ext)
  {
    AmbiguousApartFromMedia();
    AmbiguousApartFromFiles();
  }

  /** In a partition, the owner found by the scan is the one owner. */
  lemma FirstOwnerIsOwner(table: seq<Bucket>, ext: string, i: int)
    requires Partition(table)
    requires 0 <= i < |table| && ext in table[i].extensions
    ensures FirstOwner(table, ext) == Some(table[i].category)
  {
    var r := FirstOwner(table, ext);
    var k :| 0 <= k < |table| && ext in table[k].extensions && r.value == table[k].category &&
             forall j :: 0 <= j < k ==> ext !in table[j].extensions;
  }

  /** `classify_by_extension` (sort-files.py:41-51). An ambiguous extension
      and an unknown one both give `None` here, leaving the decision to the
      name heuristics. */
  function ClassifyByExtension(ext: string, isDownloads: bool): Option<string>
  {
    var universal := FirstOwner(ExtensionMap, ext);
    if universal.Some? then universal
    else if isDownloads && FirstOwner(DownloadsOnlyExtensions, ext).Some? then FirstOwner(DownloadsOnlyExtensions, ext)
    else if ext in AmbiguousExtensions then None
    else None
  }

  /** The loop over `PDF_RULES` with its fallback (sort-files.py:57-60). */
  function FirstRule(rules: seq<Rule>, nameLower: string): string
  {
    if rules == [] then WorkDocs
    else if Search(rules[0].alternatives, nameLower) then rules[0].category
    else FirstRule(rules[1..], nameLower)
  }

  /** Rule `i` is the first rule whose pattern occurs in the name. */
  ghost predicate FirstHit(rules: seq<Rule>, nameLower: string, i: int)
  {
    0 <= i < |rules| && Occurs(rules[i].alternatives, nameLower) &&
    forall j :: 0 <= j < i ==> !Occurs(rules[j].alternatives, nameLower)
  }

  /** The scan returns the category of the first rule whose pattern occurs
      anywhere in the name, and `work-docs` when none does. */
  lemma {:induction false} FirstRuleIsFirstHit(rules: seq<Rule>, nameLower: string)
    ensures forall i :: FirstHit(rules, nameLower, i) ==> FirstRule(rules, nameLower) == rules[i].category
    ensures (forall i :: 0 <= i < |rules| ==> !Occurs(rules[i].alternatives, nameLower)) ==>
              FirstRule(rules, nameLower) == WorkDocs
  {
    if rules != [] {
      SearchIsOccurs(rules[0].alternatives, nameLower);
      FirstRuleIsFirstHit(rules[1..], nameLower);
      forall i | FirstHit(rules, nameLower, i) && i > 0
        ensures FirstHit(rules[1..], nameLower, i - 1)
      {
        forall j | 0 <= j < i - 1
          ensures !Occurs(rules[1..][j].alternatives, nameLower)
        {
          assert rules[1..][j] == rules[j + 1];
        }
      }
      if forall i :: 0 <= i < |rules| ==> !Occurs(rules[i].alternatives, nameLower) {
        forall i | 0 <= i < |rules| - 1
          ensures !Occurs(rules[1..][i].alternatives, nameLower)
        {
          assert rules[1..][i] == rules[i + 1];
        }
      }
    }
  }

  /** `classify_pdf` (sort-files.py:54-60): total, a category every time. */
  function ClassifyPdf(nameLower: string, isDownloads: bool): string
  {
    if isDownloads && ConferencePaper(nameLower) then ConferencePapers
    else FirstRule(PdfRules, nameLower)
  }

  /** `classify_by_name` (sort-files.py:63-75). */
  function ClassifyByName(filename: string, ext: string, isDownloads: bool): Option<string>
  {
    var nameLower := Lower(filename);
    if ext == "pdf" then Some(ClassifyPdf(nameLower, isDownloads))
    else if ext in {"docx", "doc", "rtf"} then Some(WorkDocs)
    else if ext == "html" then Some(Reference)
    else if ext in {"md", "txt"} then Some(Reference)
    else if ext == "zip" && isDownloads then Some(Installers)
    else None
  }

  /** The chain of sort-files.py:100-108: extension, then extension table,
      then name heuristics. */
  function Classify(name: string, isDownloads: bool): Option<string>
  {
    var ext := ExtensionOf(name);
    if ext == "" then None
    else
      var byExtension := ClassifyByExtension(ext, isDownloads);
      if byExtension.None? then ClassifyByName(name, ext, isDownloads) else byExtension
  }

  // ---- properties of the classifier ----

  /** A name without a suffix is never classified. */
  lemma NoSuffixUnclassified(name: string, isDownloads: bool)
    requires Suffix(name) == ""
    ensures Classify(name, isDownloads) == None
  {
    ExtensionAfterDot(name);
  }

  /** An extension of the universal table gives its owner, in either mode,
      whatever the rest of the name. */
  lemma UniversalExtensionWins(name: string, isDownloads: bool, i: int)
    requires 0 <= i < |ExtensionMap| && ExtensionOf(name) in ExtensionMap[i].extensions
    ensures Classify(name, isDownloads) == Some(ExtensionMap[i].category)
  {
    var ext := ExtensionOf(name);
    ExtensionMapIsPartition();
    FirstOwnerIsOwner(ExtensionMap, ext, i);
    NoEmptyExtension();
    assert ClassifyByExtension(ext, isDownloads) == Some(ExtensionMap[i].category);
  }

  /** Installer images are installers in the downloads directory and
      unclassified elsewhere. */
  lemma InstallerImagesOnlyInDownloads(name: string, isDownloads: bool)
    requires ExtensionOf(name) in InstallerImages
    ensures Classify(name, isDownloads) == if isDownloads then Some(Installers) else None
  {
    var ext := ExtensionOf(name);
    InstallerImageElsewhere(ext);
    FirstOwnerIsOwner(DownloadsOnlyExtensions, ext, 0);
  }

  /** A zip archive is an installer in the downloads directory and
      unclassified elsewhere. */
  lemma ZipOnlyInDownloads(name: string, isDownloads: bool)
    requires ExtensionOf(name) == "zip"
    ensures Classify(name, isDownloads) == if isDownloads then Some(Installers) else None
  {
    AmbiguousElsewhere("zip");
  }

  /** Word-processing files are always work documents; markup and text
      files always reference material. */
  lemma DocumentsAndText(name: string, isDownloads: bool)
    ensures ExtensionOf(name) in {"docx", "doc", "rtf"} ==> Classify(name, isDownloads) == Some(WorkDocs)
    ensures ExtensionOf(name) in {"html", "md", "txt"} ==> Classify(name, isDownloads) == Some(Reference)
  {
    var ext := ExtensionOf(name);
    if ext in {"docx", "doc", "rtf", "html", "md", "txt"} {
      AmbiguousElsewhere(ext);
    }
  }

  /** The extensions that the classifier leaves alone in a given mode. */
  ghost predicate Unclassifiable(ext: string, isDownloads: bool)
  {
    ext == "" ||
    (!Owned(ExtensionMap, ext) && !(isDownloads && Owned(DownloadsOnlyExtensions, ext)) &&
     (ext !in AmbiguousExtensions || (ext == "zip" && !isDownloads)))
  }

  /** A name is left unclassified exactly when its extension is empty, is
      in no table that applies, and has no name heuristic in this mode. */
  lemma UnclassifiedIff(name: string, isDownloads: bool)
    ensures Classify(name, isDownloads) == None <==> Unclassifiable(ExtensionOf(name), isDownloads)
  {
    var ext := ExtensionOf(name);
    ByExtensionNone(ext, isDownloads);
    ByNameNone(name, ext, isDownloads);
  }

  /** The extension tables give nothing exactly when no table that applies
      owns the extension. */
  lemma ByExtensionNone(ext: string, isDownloads: bool)
    ensures ClassifyByExtension(ext, isDownloads).None? <==>
            !Owned(ExtensionMap, ext) && !(isDownloads && Owned(DownloadsOnlyExtensions, ext))
  {
  }

  /** The name heuristics give nothing exactly when the extension is not
      ambiguous, or is `zip` outside the downloads directory. */
  lemma ByNameNone(filename: string, ext: string, isDownloads: bool)
    ensures ClassifyByName(filename, ext, isDownloads).None? <==>
            ext !in AmbiguousExtensions || (ext == "zip" && !isDownloads)
  {
  }

  /** A PDF always gets a category: the result of `classify_pdf` on the
      lower-cased name. */
  lemma PdfAlwaysClassified(name: string, isDownloads: bool)
    requires ExtensionOf(name) == "pdf"
    ensures Classify(name, isDownloads) == Some(ClassifyPdf(Lower(name), isDownloads))
  {
    AmbiguousElsewhere("pdf");
  }

  /** The order of the PDF decision: the conference-paper pattern first,
      and only in the downloads directory; then the first rule whose pattern
      occurs in the name; then `work-docs`. */
  lemma PdfDecisionOrder(nameLower: string, isDownloads: bool)
    ensures isDownloads && ConferenceShape(nameLower) ==> ClassifyPdf(nameLower, isDownloads) == ConferencePapers
    ensures !(isDownloads && ConferenceShape(nameLower)) ==>
              forall i :: FirstHit(PdfRules, nameLower, i) ==> ClassifyPdf(nameLower, isDownloads) == PdfRules[i].category
    ensures !(isDownloads && ConferenceShape(nameLower)) &&
            (forall i :: 0 <= i < |PdfRules| ==> !Occurs(PdfRules[i].alternatives, nameLower)) ==>
              ClassifyPdf(nameLower, isDownloads) == WorkDocs
  {
    ConferencePaperIsShape(nameLower);
    FirstRuleIsFirstHit(PdfRules, nameLower);
  }

  /** A name whose last dot, followed by `pdf`, starts its suffix. */
  lemma PdfExtension(name: string, i: int)
    requires SuffixDotAt(name, i) && name[i + 1..] == "pdf"
    ensures ExtensionOf(name) == "pdf"
  {
    ExtensionAfterDot(name);
  }

  lemma AliceNameFacts()
    ensures ExtensionOf("alice smith_thesis.pdf") == "pdf"
    ensures Lower("alice smith_thesis.pdf") == "alice smith_thesis.pdf"
    ensures ConferenceShape("alice smith_thesis.pdf")
  {
    var name := "alice smith_thesis.pdf";
    PdfExtension(name, 18);
    AliceLowercase();
    AliceShape();
  }

  lemma AliceShape()
    ensures ConferenceShape("alice smith_thesis.pdf")
  {
    var name := "alice smith_thesis.pdf";
    assert LetterRun(name, 0, 5) && NameRun(name, 6, 11);
    assert ShapeAt(name, 5, 11);
  }

  /** An author-and-title export in the downloads directory is a
      conference paper, ahead of every PDF rule. */
  lemma ConferencePaperExample()
    ensures Classify("alice smith_thesis.pdf", true) == Some(ConferencePapers)
  {
    AliceNameFacts();
    PdfAlwaysClassified("alice smith_thesis.pdf", true);
    PdfDecisionOrder("alice smith_thesis.pdf", true);
  }

  lemma TrainingNameFacts()
    ensures ExtensionOf("training-report-guide.pdf") == "pdf"
    ensures Lower("training-report-guide.pdf") == "training-report-guide.pdf"
    ensures FirstHit(PdfRules, "training-report-guide.pdf", 0)
  {
    var name := "training-report-guide.pdf";
    PdfExtension(name, 21);
    TrainingLowercase();
    TrainingHit(name);
  }

  lemma TrainingHit(name: string)
    requires name == "training-report-guide.pdf"
    ensures FirstHit(PdfRules, name, 0)
  {
    assert MatchesAt(PdfRules[0].alternatives[4], name, 0);
  }

  /** `report` and `guide` occur in the name as well. */
  lemma TrainingAlsoLater(name: string)
    requires name == "training-report-guide.pdf"
    ensures Occurs(PdfRules[1].alternatives, name) && Occurs(PdfRules[2].alternatives, name)
  {
    assert MatchesAt(PdfRules[1].alternatives[0], name, 9);
    assert MatchesAt(PdfRules[2].alternatives[1], name, 16);
  }

  lemma AliceLowercase()
    ensures Lower("alice smith_thesis.pdf") == "alice smith_thesis.pdf"
  {
    LowerKeepsLowercase("alice smith_thesis.pdf");
  }

  lemma TrainingLowercase()
    ensures Lower("training-report-guide.pdf") == "training-report-guide.pdf"
  {
    LowerKeepsLowercase("training-report-guide.pdf");
  }

  /** The first rule wins when several patterns occur in the name: the
      reports and e-books rules occur in it too. */
  lemma RuleOrderExample()
    ensures Occurs(PdfRules[1].alternatives, "training-report-guide.pdf")
    ensures Occurs(PdfRules[2].alternatives, "training-report-guide.pdf")
    ensures Classify("training-report-guide.pdf", false) == Some("training")
  {
    TrainingAlsoLater("training-report-guide.pdf");
    TrainingNameFacts();
    PdfAlwaysClassified("training-report-guide.pdf", false);
    PdfDecisionOrder("training-report-guide.pdf", false);
  }

  lemma RandomNameMissesEveryRule()
    ensures forall i :: 0 <= i < |PdfRules| ==> !Occurs(PdfRules[i].alternatives, "random_file.pdf")
  {
    RandomNameMissesTraining();
    RandomNameMissesReports();
    RandomNameMissesEbooks();
    RandomNameMissesTemplates();
    RandomNameMissesPersonal();
    RandomNameMissesReference();
  }

  lemma RandomNameMissesTraining()
    ensures !Occurs(PdfRules[0].alternatives, "random_file.pdf")
  {
    MissingCharRulesOut(PdfRules[0].alternatives, "random_file.pdf", "ccsctsc");
  }

  lemma RandomNameMissesReports()
    ensures !Occurs(PdfRules[1].alternatives, "random_file.pdf")
  {
    MissingCharRulesOut(PdfRules[1].alternatives, "random_file.pdf", "tttsscbw");
  }

  lemma RandomNameMissesEbooks()
    ensures !Occurs(PdfRules[2].alternatives, "random_file.pdf")
  {
    MissingCharRulesOut(PdfRules[2].alternatives, "random_file.pdf", "hgbu");
  }

  lemma RandomNameMissesTemplates()
    ensures !Occurs(PdfRules[3].alternatives, "random_file.pdf")
  {
    MissingCharRulesOut(PdfRules[3].alternatives, "random_file.pdf", "t");
  }

  lemma RandomNameMissesPersonal()
    ensures !Occurs(PdfRules[4].alternatives, "random_file.pdf")
  {
    MissingCharRulesOut(PdfRules[4].alternatives, "random_file.pdf", "cvbbsttsss");
  }

  lemma RandomNameMissesReference()
    ensures !Occurs(PdfRules[5].alternatives, "random_file.pdf")
  {
    MissingCharRulesOut(PdfRules[5].alternatives, "random_file.pdf", "ccqc");
  }

  lemma RandomNameFacts()
    ensures ExtensionOf("random_file.pdf") == "pdf"
    ensures Lower("random_file.pdf") == "random_file.pdf"
  {
    PdfExtension("random_file.pdf", 11);
    RandomLowercase();
  }

  lemma RandomLowercase()
    ensures Lower("random_file.pdf") == "random_file.pdf"
  {
    LowerKeepsLowercase("random_file.pdf");
  }

  /** A PDF that no rule recognises is a work document. */
  lemma FallbackExample()
    ensures Classify("random_file.pdf", false) == Some(WorkDocs)
  {
    RandomNameFacts();
    RandomNameMissesEveryRule();
    PdfAlwaysClassified("random_file.pdf", false);
    PdfDecisionOrder("random_file.pdf", false);
  }

  /** Zip archives depend on the directory. */
  lemma ZipExample()
    ensures Classify("archive.zip", true) == Some(Installers)
    ensures Classify("archive.zip", false) == None
  {
    var name := "archive.zip";
    assert SuffixDotAt(name, 7);
    ExtensionAfterDot(name);
    assert ExtensionOf(name) == "zip";
    ZipOnlyInDownloads(name, true);
    ZipOnlyInDownloads(name, false);
  }

  /** Extensions are compared in lower case. */
  lemma UpperCaseExtensionExample()
    ensures Classify("Photo.PNG", false) == Some("images")
  {
    var name := "Photo.PNG";
    assert SuffixDotAt(name, 5);
    ExtensionAfterDot(name);
    assert ExtensionOf(name) == "png";
    UniversalExtensionWins(name, false, 0);
  }
}
