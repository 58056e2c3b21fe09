/**
  String helpers behind the .NET and Umbraco string calls the synchronisation
  code relies on: `string.IsNullOrWhiteSpace`, the case-insensitive
  `InvariantEquals` and `InvariantContains` extensions, and joining with a
  separator. Case-insensitivity is modelled as folding ASCII letters; the
  culture tables of .NET are not modelled.
*/
module Text {

  /** A subset of the characters `char.IsWhiteSpace` accepts: the ASCII and common Unicode spaces and line breaks. */
  predicate IsWhiteSpace(c: char) {
    c == ' ' || c == '\t' || c == '\n' || c == '\r' || c == '\U{000B}' || c == '\U{000C}'
    || c == '\U{0085}' || c == '\U{00A0}' || c == '\U{2028}' || c == '\U{2029}' || c == '\U{3000}'
  }

  /** `string.IsNullOrWhiteSpace` on a non-null string: empty, or whitespace only. */
  predicate IsBlank(s: string) {
    forall i :: 0 <= i < |s| ==> IsWhiteSpace(s[i])
  }

  /** Case folding of one character (ASCII letters only). */
  function FoldChar(c: char): char {
    if 'A' <= c <= 'Z' then (c as int + 32) as char else c
  }

  /** Case folding of a string, character by character. */
  function Fold(s: string): (r: string)
    ensures |r| == |s|
    ensures forall i :: 0 <= i < |s| ==> r[i] == FoldChar(s[i])
  {
    if s == [] then [] else [FoldChar(s[0])] + Fold(s[1..])
  }

  /** Umbraco's `InvariantEquals`: equality ignoring case. */
  predicate InvariantEquals(a: string, b: string) {
    Fold(a) == Fold(b)
  }

  /** `needle` occurs in `hay` starting at index `i`. */
  predicate OccursAt(needle: string, hay: string, i: int) {
    0 <= i <= |hay| - |needle| && hay[i..i + |needle|] == needle
  }

  /** `needle` occurs in `hay` as a contiguous block. */
  predicate IsSubstring(needle: string, hay: string) {
    exists i | 0 <= i <= |hay| - |needle| :: OccursAt(needle, hay, i)
  }

  /** Umbraco's `InvariantContains` on strings: `needle` occurs in `hay`, ignoring case. */
  predicate InvariantContains(hay: string, needle: string) {
    IsSubstring(Fold(needle), Fold(hay))
  }

  /** `parts` joined with `sep` between consecutive parts. */
  function Join(parts: seq<string>, sep: string): string
    decreases |parts|
  {
    if |parts| == 0 then ""
    else if |parts| == 1 then parts[0]
    else Join(parts[..|parts| - 1], sep) + sep + parts[|parts| - 1]
  }

  /** Joining one more part adds the separator and the part. */
  lemma JoinSnoc(parts: seq<string>, last: string, sep: string)
    requires parts != []
    ensures Join(parts + [last], sep) == Join(parts, sep) + sep + last
  {
    assert (parts + [last])[..|parts|] == parts;
  }

  lemma FoldAppend(a: string, b: string)
    ensures Fold(a + b) == Fold(a) + Fold(b)
  {
  }

  /** Two strings that differ in one character of the same folding fold alike. */
  lemma FoldOneChar(pre: string, a: char, b: char, post: string)
    requires FoldChar(a) == FoldChar(b)
    ensures Fold(pre + [a] + post) == Fold(pre + [b] + post)
  {
    FoldAppend(pre + [a], post);
    FoldAppend(pre + [b], post);
    FoldAppend(pre, [a]);
    FoldAppend(pre, [b]);
  }

  /** A substring of a block is a substring of anything that contains the block. */
  lemma SubstringWithin(needle: string, mid: string, pre: string, post: string)
    requires IsSubstring(needle, mid)
    ensures IsSubstring(needle, pre + mid + post)
  {
    var i :| 0 <= i <= |mid| - |needle| && OccursAt(needle, mid, i);
    var whole := pre + mid + post;
    var j := |pre| + i;
    assert whole[j..j + |needle|] == mid[i..i + |needle|];
    assert OccursAt(needle, whole, j);
  }

  lemma SubstringSelf(s: string)
    ensures IsSubstring(s, s)
  {
    assert s[0..|s|] == s;
    assert OccursAt(s, s, 0);
  }

  /** Every part of a joined list occurs in the joined string. */
  lemma {:induction false} PartOfJoin(parts: seq<string>, sep: string, k: nat)
    requires k < |parts|
    ensures IsSubstring(parts[k], Join(parts, sep))
    decreases |parts|
  {
    if |parts| == 1 {
      SubstringSelf(parts[0]);
    } else {
      var init := parts[..|parts| - 1];
      var last := parts[|parts| - 1];
      var front := Join(init, sep);
      assert Join(parts, sep) == front + sep + last;
      if k == |parts| - 1 {
        assert OccursAt(last, front + sep + last, |front + sep|);
      } else {
        assert init[k] == parts[k];
        PartOfJoin(init, sep, k);
        SubstringWithin(parts[k], front, "", sep + last);
        assert "" + front + (sep + last) == front + sep + last;
      }
    }
  }

  /** Folding preserves substrings. */
  lemma FoldSubstring(needle: string, hay: string)
    requires IsSubstring(needle, hay)
    ensures IsSubstring(Fold(needle), Fold(hay))
  {
    var i :| 0 <= i <= |hay| - |needle| && OccursAt(needle, hay, i);
    assert Fold(hay)[i..i + |needle|] == Fold(needle);
    assert OccursAt(Fold(needle), Fold(hay), i);
  }
}
