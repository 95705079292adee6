/**
 * `process_directory` (sort-files.py:92-126): one pass over a directory's
 * listing that moves each loose, classifiable file into the category
 * subdirectory of the same directory, when that subdirectory exists, under
 * a name that overwrites nothing, and counts the files per category.
 *
 * The directory is a `Folder`: the names of its regular files and, per
 * subdirectory, the names that subdirectory holds. The listing is the
 * sorted snapshot of `iterdir()` taken before the first move; `is_file()`
 * and `is_dir()` are asked of the folder as it stands when each name comes
 * up.
 *
 * The bookkeeping of the pass (what it counts, what it moves) depends only
 * on where each name goes, so it is stated for any such assignment `dest`;
 * `Destinations` is the one the pass uses.
 */
module Mover {
  import opened Wrappers
  import opened Paths
  import opened Classifier
  import opened Collision

  /** Dot files are skipped (sort-files.py:97). */
  predicate Hidden(name: string)
  {
    |name| > 0 && name[0] == '.'
  }

  /** Where the pass sends a listed name, judged on the folder as it was at
      the start: a regular file that is not hidden, has a category, and
      whose category subdirectory exists. `None` means it stays put. */
  function Target(name: string, files: set<string>, dirs: set<string>, isDownloads: bool): Option<string>
  {
    if name !in files || Hidden(name) then None
    else
      var category := Classify(name, isDownloads);
      if category.Some? && category.value in dirs then category else None
  }

  /** `Target` for every name, on one folder. */
  function Destinations(files: set<string>, dirs: set<string>, isDownloads: bool): string -> Option<string>
  {
    name => Target(name, files, dirs, isDownloads)
  }

  /** A count of the `defaultdict(int)`, zero when absent. */
  function Get(counts: map<string, nat>, category: string): nat
  {
    if category in counts then counts[category] else 0
  }

  /** `counts[category] += 1`. */
  function Bump(counts: map<string, nat>, category: string): (r: map<string, nat>)
    ensures r.Keys == counts.Keys + {category}
    ensures Get(r, category) == Get(counts, category) + 1
    ensures forall c :: c != category ==> Get(r, c) == Get(counts, c)
  {
    counts[category := Get(counts, category) + 1]
  }

  /** The counts a pass over `listing` returns. */
  function Tally(listing: seq<string>, dest: string -> Option<string>): map<string, nat>
  {
    if listing == [] then map[]
    else
      var counts := Tally(listing[..|listing| - 1], dest);
      var target := dest(listing[|listing| - 1]);
      if target.Some? then Bump(counts, target.value) else counts
  }

  /** How many listed names go to `category`. */
  function CountOf(listing: seq<string>, dest: string -> Option<string>, category: string): nat
  {
    if listing == [] then 0
    else (if dest(listing[0]) == Some(category) then 1 else 0) + CountOf(listing[1..], dest, category)
  }

  /** The names a pass over `listing` moves out of the folder. */
  function Moved(listing: seq<string>, dest: string -> Option<string>): set<string>
  {
    if listing == [] then {}
    else
      var moved := Moved(listing[..|listing| - 1], dest);
      var name := listing[|listing| - 1];
      if dest(name).Some? then moved + {name} else moved
  }

  /** A directory lists every name once. */
  predicate DistinctNames(listing: seq<string>)
  {
    forall j, k :: 0 <= j < k < |listing| ==> listing[j] != listing[k]
  }

  /** Counting the last name first or the first name first gives the same
      number. */
  lemma {:induction false} CountOfLast(listing: seq<string>, dest: string -> Option<string>, category: string)
    requires listing != []
    ensures CountOf(listing, dest, category) ==
            CountOf(listing[..|listing| - 1], dest, category) +
            (if dest(listing[|listing| - 1]) == Some(category) then 1 else 0)
  {
    if |listing| > 1 {
      assert listing[1..][..|listing[1..]| - 1] == listing[..|listing| - 1][1..];
      CountOfLast(listing[1..], dest, category);
    }
  }

  /** The returned counts say how many listed names went to each category,
      and only categories that received a name appear. */
  lemma {:induction false} TallyCounts(listing: seq<string>, dest: string -> Option<string>)
    ensures forall c :: Get(Tally(listing, dest), c) == CountOf(listing, dest, c)
    ensures forall c :: c in Tally(listing, dest) <==> CountOf(listing, dest, c) > 0
  {
    if listing != [] {
      TallyCounts(listing[..|listing| - 1], dest);
      forall c | true
        ensures Get(Tally(listing, dest), c) == CountOf(listing, dest, c)
      {
        CountOfLast(listing, dest, c);
      }
    }
  }

  /** A category is counted only if some listed name goes to it. */
  lemma {:induction false} CountedWereSent(listing: seq<string>, dest: string -> Option<string>, category: string)
    requires CountOf(listing, dest, category) > 0
    ensures exists k :: 0 <= k < |listing| && dest(listing[k]) == Some(category)
  {
    if dest(listing[0]) != Some(category) {
      CountedWereSent(listing[1..], dest, category);
      var k :| 0 <= k < |listing[1..]| && dest(listing[1..][k]) == Some(category);
      assert listing[1..][k] == listing[k + 1];
    }
  }

  /** The pass only counts categories whose subdirectory exists. */
  lemma CountsOnlySubdirectories(listing: seq<string>, files: set<string>, dirs: set<string>, isDownloads: bool)
    ensures Tally(listing, Destinations(files, dirs, isDownloads)).Keys <= dirs
  {
    var dest := Destinations(files, dirs, isDownloads);
    TallyCounts(listing, dest);
    forall c | c in Tally(listing, dest)
      ensures c in dirs
    {
      CountedWereSent(listing, dest, c);
      var k :| 0 <= k < |listing| && dest(listing[k]) == Some(c);
    }
  }

  /** A name is moved exactly when it is listed and has somewhere to go. */
  lemma {:induction false} MovedIff(listing: seq<string>, dest: string -> Option<string>, name: string)
    ensures name in Moved(listing, dest) <==> name in listing && dest(name).Some?
  {
    if listing != [] {
      var prefix, last := listing[..|listing| - 1], listing[|listing| - 1];
      MovedIff(prefix, dest, name);
      assert name in listing <==> name in prefix || name == last;
    }
  }

  /** Only regular files of the folder are moved. */
  lemma MovedAreFiles(listing: seq<string>, files: set<string>, dirs: set<string>, isDownloads: bool)
    ensures Moved(listing, Destinations(files, dirs, isDownloads)) <= files
  {
    forall name | name in Moved(listing, Destinations(files, dirs, isDownloads))
      ensures name in files
    {
      MovedIff(listing, Destinations(files, dirs, isDownloads), name);
    }
  }

  /** Hidden files, names without a category and names whose category has
      no subdirectory are left where they are. */
  lemma LeftInPlace(listing: seq<string>, files: set<string>, dirs: set<string>, isDownloads: bool,
                    name: string)
    requires Hidden(name) || Classify(name, isDownloads).None? ||
             Classify(name, isDownloads).value !in dirs
    ensures name !in Moved(listing, Destinations(files, dirs, isDownloads))
  {
    MovedIff(listing, Destinations(files, dirs, isDownloads), name);
  }

  /** The listed names that have somewhere to go, in listing order. */
  function Kept(listing: seq<string>, dest: string -> Option<string>): (r: seq<string>)
    ensures forall k :: 0 <= k < |r| ==> dest(r[k]).Some?
  {
    if listing == [] then []
    else
      var kept := Kept(listing[..|listing| - 1], dest);
      var name := listing[|listing| - 1];
      if dest(name).Some? then kept + [name] else kept
  }

  /** Skipped names leave no trace: the pass over the kept names alone
      counts and moves exactly what the pass over the whole listing does. */
  lemma {:induction false} SkippedLeaveNoTrace(listing: seq<string>, dest: string -> Option<string>)
    ensures Tally(Kept(listing, dest), dest) == Tally(listing, dest)
    ensures Moved(Kept(listing, dest), dest) == Moved(listing, dest)
  {
    if listing != [] {
      var prefix, name := listing[..|listing| - 1], listing[|listing| - 1];
      SkippedLeaveNoTrace(prefix, dest);
      if dest(name).Some? {
        TallySnoc(Kept(prefix, dest), name, dest);
      }
    }
  }

  /** One more name of the listing: how the counts and the moved names
      grow, and that the name has not been moved before. */
  lemma Step(listing: seq<string>, i: nat, dest: string -> Option<string>)
    requires i < |listing| && DistinctNames(listing)
    ensures Tally(listing[..i + 1], dest) ==
              (if dest(listing[i]).Some? then Bump(Tally(listing[..i], dest), dest(listing[i]).value)
               else Tally(listing[..i], dest))
    ensures Moved(listing[..i + 1], dest) ==
              (if dest(listing[i]).Some? then Moved(listing[..i], dest) + {listing[i]}
               else Moved(listing[..i], dest))
    ensures listing[i] !in Moved(listing[..i], dest)
  {
    assert listing[..i + 1][..i] == listing[..i];
    MovedIff(listing[..i], dest, listing[i]);
  }

  /** Every subdirectory of `now` still holds all it held in `orig`, and
      holds exactly as many more names as `counts` gives its category. */
  ghost predicate Grown(orig: map<string, set<string>>, now: map<string, set<string>>, counts: map<string, nat>)
  {
    orig.Keys == now.Keys &&
    forall c :: c in now ==> orig[c] <= now[c] && |now[c]| == |orig[c]| + Get(counts, c)
  }

  /** Moving one file under a fresh name into the subdirectory of its
      category keeps the subdirectories in step with the counts. */
  lemma GrownByOne(orig: map<string, set<string>>, now: map<string, set<string>>, counts: map<string, nat>,
                   category: string, dest: string)
    requires Grown(orig, now, counts)
    requires category in now && dest !in now[category]
    ensures Grown(orig, now[category := now[category] + {dest}], Bump(counts, category))
  {
    var now', counts' := now[category := now[category] + {dest}], Bump(counts, category);
    forall c | c in now'
      ensures orig[c] <= now'[c] && |now'[c]| == |orig[c]| + Get(counts', c)
    {
      if c != category {
        assert now'[c] == now[c] && Get(counts', c) == Get(counts, c);
      }
    }
  }

  /** Where the pass stands after the first `i` names of the listing, from
      the folder `files0`/`subdirs0` it started on: the counts so far, and
      either nothing changed (a dry run) or the names moved so far gone from
      the folder with the subdirectories grown to match the counts. */
  ghost predicate Progress(listing: seq<string>, i: nat, isDownloads: bool, dryRun: bool,
                           files0: set<string>, subdirs0: map<string, set<string>>,
                           files: set<string>, subdirs: map<string, set<string>>, counts: map<string, nat>)
  {
    var dest := Destinations(files0, subdirs0.Keys, isDownloads);
    i <= |listing| &&
    counts == Tally(listing[..i], dest) &&
    subdirs.Keys == subdirs0.Keys &&
    (dryRun ==> files == files0 && subdirs == subdirs0) &&
    (!dryRun ==> files == files0 - Moved(listing[..i], dest) && Grown(subdirs0, subdirs, counts))
  }

  /** The next name is still where the listing found it, so the pass judges
      it as it would have at the start. */
  lemma NextUntouched(listing: seq<string>, i: nat, isDownloads: bool, dryRun: bool,
                      files0: set<string>, subdirs0: map<string, set<string>>,
                      files: set<string>, subdirs: map<string, set<string>>, counts: map<string, nat>)
    requires DistinctNames(listing) && i < |listing|
    requires Progress(listing, i, isDownloads, dryRun, files0, subdirs0, files, subdirs, counts)
    ensures Target(listing[i], files, subdirs.Keys, isDownloads) == Target(listing[i], files0, subdirs0.Keys, isDownloads)
  {
    Step(listing, i, Destinations(files0, subdirs0.Keys, isDownloads));
    assert listing[i] in files <==> listing[i] in files0;
  }

  /** Handling the next name as `SortOne` does and counting it keeps the
      pass's progress. */
  lemma Advance(listing: seq<string>, i: nat, isDownloads: bool, dryRun: bool,
                files0: set<string>, subdirs0: map<string, set<string>>,
                files: set<string>, subdirs: map<string, set<string>>, counts: map<string, nat>,
                category: Option<string>, dest: string,
                files': set<string>, subdirs': map<string, set<string>>)
    requires DistinctNames(listing) && i < |listing|
    requires Progress(listing, i, isDownloads, dryRun, files0, subdirs0, files, subdirs, counts)
    requires category == Target(listing[i], files0, subdirs0.Keys, isDownloads)
    requires category.Some? ==> category.value in subdirs && dest !in subdirs[category.value]
    requires dryRun || category.None? ==> files' == files && subdirs' == subdirs
    requires !dryRun && category.Some? ==>
               files' == files - {listing[i]} &&
               subdirs' == subdirs[category.value := subdirs[category.value] + {dest}]
    ensures Progress(listing, i + 1, isDownloads, dryRun, files0, subdirs0, files', subdirs',
                     if category.Some? then Bump(counts, category.value) else counts)
  {
    Step(listing, i, Destinations(files0, subdirs0.Keys, isDownloads));
    if category.Some? && !dryRun {
      GrownByOne(subdirs0, subdirs, counts, category.value, dest);
    }
  }

  /** The directory the pass works on. */
  class Folder {
    /** The regular files directly in the directory. */
    var files: set<string>
    /** Each subdirectory and the names it holds. */
    var subdirs: map<string, set<string>>

    constructor (files: set<string>, subdirs: map<string, set<string>>)
      ensures this.files == files && this.subdirs == subdirs
    {
      this.files := files;
      this.subdirs := subdirs;
    }

    /** `shutil.move`: the file leaves the directory and appears in the
        subdirectory under the chosen name. */
    method Move(name: string, category: string, dest: string)
      requires category in subdirs
      modifies this
      ensures files == old(files) - {name}
      ensures subdirs == old(subdirs)[category := old(subdirs)[category] + {dest}]
    {
      files := files - {name};
      subdirs := subdirs[category := subdirs[category] + {dest}];
    }

    /** One name of the listing (sort-files.py:97-122): skipped unless it is
        a regular, visible file with a category whose subdirectory exists;
        otherwise given a fresh name in that subdirectory and, unless this
        is a dry run, moved there. `category` is the category the name is
        counted under, `None` when it is skipped. */
    method SortOne(name: string, isDownloads: bool, dryRun: bool) returns (category: Option<string>, dest: string)
      modifies this
      ensures category == Target(name, old(files), old(subdirs).Keys, isDownloads)
      ensures category.Some? ==> category.value in old(subdirs) && Resolves(name, old(subdirs)[category.value], dest)
      ensures dryRun || category.None? ==> files == old(files) && subdirs == old(subdirs)
      ensures !dryRun && category.Some? ==>
                files == old(files) - {name} &&
                subdirs == old(subdirs)[category.value := old(subdirs)[category.value] + {dest}]
    {
      dest := name;
      if name !in files || Hidden(name) {
        return None, dest;
      }
      category := Classify(name, isDownloads);
      if category.None? {
        return None, dest;
      }
      var c := category.value;
      if c !in subdirs {
        return None, dest;
      }
      dest := ResolveCollision(name, subdirs[c]);
      if !dryRun {
        Move(name, c, dest);
      }
    }

    /** Handles the `i`-th name of the listing and counts it
        (sort-files.py:96-124, one iteration). */
    method Visit(listing: seq<string>, i: nat, isDownloads: bool, dryRun: bool,
                 ghost files0: set<string>, ghost subdirs0: map<string, set<string>>,
                 counts: map<string, nat>) returns (counts': map<string, nat>)
      requires DistinctNames(listing) && i < |listing|
      requires Progress(listing, i, isDownloads, dryRun, files0, subdirs0, files, subdirs, counts)
      modifies this
      ensures Progress(listing, i + 1, isDownloads, dryRun, files0, subdirs0, files, subdirs, counts')
    {
      NextUntouched(listing, i, isDownloads, dryRun, files0, subdirs0, files, subdirs, counts);
      ghost var files', subdirs' := files, subdirs;
      var category, dest := SortOne(listing[i], isDownloads, dryRun);
      Advance(listing, i, isDownloads, dryRun, files0, subdirs0, files', subdirs', counts,
              category, dest, files, subdirs);
      counts' := counts;
      if category.Some? {
        counts' := Bump(counts, category.value);
      }
    }

    /** The pass over `listing`. In a dry run nothing moves but the counts
        are the same. Otherwise every moved file leaves the folder and lands
        in its category subdirectory under a fresh name: no subdirectory
        loses a name, and each gains exactly one name per file counted for
        it. */
    method SortFiles(listing: seq<string>, isDownloads: bool, dryRun: bool) returns (counts: map<string, nat>)
      requires DistinctNames(listing)
      modifies this
      ensures counts == Tally(listing, Destinations(old(files), old(subdirs).Keys, isDownloads))
      ensures subdirs.Keys == old(subdirs).Keys
      ensures dryRun ==> files == old(files) && subdirs == old(subdirs)
      ensures !dryRun ==> files == old(files) - Moved(listing, Destinations(old(files), old(subdirs).Keys, isDownloads))
      ensures !dryRun ==> Grown(old(subdirs), subdirs, counts)
    {
      counts := map[];
      for i := 0 to |listing|
        invariant Progress(listing, i, isDownloads, dryRun, old(files), old(subdirs), files, subdirs, counts)
      {
        counts := Visit(listing, i, isDownloads, dryRun, old(files), old(subdirs), counts);
      }
      assert listing[..|listing|] == listing;
    }
  }

  /** The dry run reports exactly the counts of the real run on the same
      folder, and those count the names sent to each category. */
  method DryRunMatchesRealRun(listing: seq<string>, files: set<string>, subdirs: map<string, set<string>>,
                              isDownloads: bool) returns (preview: map<string, nat>, actual: map<string, nat>)
    requires DistinctNames(listing)
    ensures preview == actual
    ensures forall c :: Get(actual, c) == CountOf(listing, Destinations(files, subdirs.Keys, isDownloads), c)
  {
    var rehearsal := new Folder(files, subdirs);
    preview := rehearsal.SortFiles(listing, isDownloads, true);
    var folder := new Folder(files, subdirs);
    actual := folder.SortFiles(listing, isDownloads, false);
    TallyCounts(listing, Destinations(files, subdirs.Keys, isDownloads));
  }

  /** A folder holding `photo.png` and an `images` subdirectory that
      already holds a `photo.png`: the photo moves in beside the old one,
      under a new name, and the folder keeps no loose file. */
  method PhotoScenario() returns (counts: map<string, nat>, left: set<string>, images: set<string>)
    ensures counts == map["images" := 1]
    ensures left == {}
    ensures "photo.png" in images && |images| == 2
  {
    var files, subdirs := {"photo.png"}, map["images" := {"photo.png"}];
    var listing := ["images", "photo.png"];
    ScenarioOutcome(listing, files, subdirs.Keys);
    var folder := new Folder(files, subdirs);
    counts := folder.SortFiles(listing, false, false);
    left := folder.files;
    images := folder.subdirs["images"];
  }

  lemma PhotoIsImage(name: string, isDownloads: bool)
    requires name == "photo.png"
    ensures Classify(name, isDownloads) == Some("images")
  {
    assert SuffixDotAt(name, 5);
    ExtensionIsRest(name, 5);
    UniversalExtensionWins(name, isDownloads, 0);
  }

  /** Adding a name at the end of the listing. */
  lemma TallySnoc(listing: seq<string>, name: string, dest: string -> Option<string>)
    ensures Tally(listing + [name], dest) ==
              (if dest(name).Some? then Bump(Tally(listing, dest), dest(name).value) else Tally(listing, dest))
    ensures Moved(listing + [name], dest) ==
              (if dest(name).Some? then Moved(listing, dest) + {name} else Moved(listing, dest))
  {
    assert (listing + [name])[..|listing|] == listing;
  }

  /** A listing of a name that stays and then a name that goes to
      `category`: one file counted, that file moved. */
  lemma StayThenGo(first: string, second: string, dest: string -> Option<string>, category: string)
    requires dest(first) == None && dest(second) == Some(category)
    ensures Tally([first, second], dest) == map[category := 1]
    ensures Moved([first, second], dest) == {second}
  {
    TallySnoc([], first, dest);
    TallySnoc([first], second, dest);
    assert [first, second] == [first] + [second];
    assert Get(map[], category) == 0;
  }

  lemma ScenarioOutcome(listing: seq<string>, files: set<string>, dirs: set<string>)
    requires listing == ["images", "photo.png"] && files == {"photo.png"} && dirs == {"images"}
    ensures DistinctNames(listing)
    ensures Tally(listing, Destinations(files, dirs, false)) == map["images" := 1]
    ensures Moved(listing, Destinations(files, dirs, false)) == {"photo.png"}
  {
    var folder, photo := listing[0], listing[1];
    SubdirectoryStays(folder, files, dirs, false);
    PhotoGoes(photo, files, dirs);
    StayThenGo(folder, photo, Destinations(files, dirs, false), "images");
  }

  /** A name that is not a regular file stays put. */
  lemma SubdirectoryStays(name: string, files: set<string>, dirs: set<string>, isDownloads: bool)
    requires name !in files
    ensures Destinations(files, dirs, isDownloads)(name) == None
  {
  }

  lemma PhotoGoes(name: string, files: set<string>, dirs: set<string>)
    requires name == "photo.png" && name in files && "images" in dirs
    ensures Destinations(files, dirs, false)(name) == Some("images")
  {
    PhotoIsImage(name, false);
  }
}
