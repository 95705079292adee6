/**
 * The parts of `pathlib.PurePath` the sorter uses on a file name: `suffix`,
 * `stem`, and the lower-cased extension the sorter derives from the suffix
 * (sort-files.py:100).
 */
module Paths {
  import opened Text

  /** The position of the dot that starts a suffix: the last dot, when it is
      neither the first nor the final character of the name. */
  predicate SuffixDotAt(name: string, i: int)
  {
    0 < i < |name| - 1 && name[i] == '.' && forall k :: i < k < |name| ==> name[k] != '.'
  }

  /** `Path.suffix`: from the last dot on, or empty when that dot is the
      first or the final character, or there is none. */
  function Suffix(name: string): (r: string)
    ensures r == "" || (r[0] == '.' && |r| >= 2)
    ensures forall k :: 1 <= k < |r| ==> r[k] != '.'
  {
    var i := RFind(name, '.');
    if 0 < i < |name| - 1 then name[i..] else ""
  }

  /** `Path.stem`: the name without its suffix. */
  function Stem(name: string): string
  {
    var i := RFind(name, '.');
    if 0 < i < |name| - 1 then name[..i] else name
  }

  /** The extension as the sorter derives it: `suffix.lstrip(".").lower()`. */
  function ExtensionOf(name: string): string
  {
    Lower(LStrip(Suffix(name), '.'))
  }

  lemma StemAndSuffix(name: string)
    ensures Stem(name) + Suffix(name) == name
  {
  }

  /** The suffix is non-empty exactly when the name has a suffix dot, and it
      then starts at that dot. */
  lemma {:induction false} SuffixAtDot(name: string)
    ensures Suffix(name) != "" <==> exists i :: SuffixDotAt(name, i)
    ensures forall i :: SuffixDotAt(name, i) ==> Suffix(name) == name[i..] && Stem(name) == name[..i]
  {
    var j := RFind(name, '.');
    assert forall i :: SuffixDotAt(name, i) ==> i == j;
    if Suffix(name) != "" {
      assert SuffixDotAt(name, j);
    }
  }

  /** The extension is what follows the suffix dot, lower-cased; without a
      suffix dot it is empty. It never holds a dot. */
  lemma ExtensionAfterDot(name: string)
    ensures forall i :: SuffixDotAt(name, i) ==> ExtensionOf(name) == Lower(name[i + 1..])
    ensures (forall i :: !SuffixDotAt(name, i)) ==> ExtensionOf(name) == ""
    ensures ExtensionOf(name) == "" <==> Suffix(name) == ""
    ensures forall k :: 0 <= k < |ExtensionOf(name)| ==> ExtensionOf(name)[k] != '.'
  {
    SuffixAtDot(name);
    StripOneDot(Suffix(name));
  }

  /** On a suffix, `lstrip(".")` removes exactly its leading dot. */
  lemma StripOneDot(s: string)
    requires s == "" || (s[0] == '.' && |s| >= 2)
    requires forall k :: 1 <= k < |s| ==> s[k] != '.'
    ensures s != "" ==> LStrip(s, '.') == s[1..]
    ensures s == "" ==> LStrip(s, '.') == ""
  {
    if s != "" {
      assert LStrip(s, '.') == LStrip(s[1..], '.');
    }
  }

  /** When nothing after the suffix dot is a capital, the extension is
      exactly what follows the dot. */
  lemma ExtensionIsRest(name: string, i: int)
    requires SuffixDotAt(name, i)
    requires forall k :: i < k < |name| ==> !IsUpper(name[k])
    ensures ExtensionOf(name) == name[i + 1..]
  {
    ExtensionAfterDot(name);
    LowerKeepsLowercase(name[i + 1..]);
  }
}
