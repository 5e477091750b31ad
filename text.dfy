/**
 * The Python string operations the handlers of backend/server.py rely on:
 * `pat in s`, `s.split(sep)` and `sep.join(parts)`, over `string`.
 */
module Text {
  import opened Wrappers

  /** `pat` occurs in `s` starting at position `i`. */
  predicate OccursAt(s: string, pat: string, i: nat) {
    i + |pat| <= |s| && s[i..i + |pat|] == pat
  }

  /** Python's `pat in s`. */
  predicate Contains(s: string, pat: string) {
    exists i: nat :: i <= |s| && OccursAt(s, pat, i)
  }

  /** Position of the first occurrence of `pat` in `s` at or after `from`. */
  function IndexOf(s: string, pat: string, from: nat): (r: Option<nat>)
    requires from <= |s|
    decreases |s| - from
    ensures r.Some? ==> from <= r.value && OccursAt(s, pat, r.value)
    ensures r.Some? ==> forall j: nat :: from <= j < r.value ==> !OccursAt(s, pat, j)
    ensures r.None? ==> forall j: nat :: from <= j ==> !OccursAt(s, pat, j)
  {
    if OccursAt(s, pat, from) then Some(from)
    else if from == |s| then None
    else IndexOf(s, pat, from + 1)
  }

  /** An occurrence inside a prefix of `s` is an occurrence in `s`. */
  lemma OccursInPrefix(s: string, pat: string, n: nat, k: nat)
    requires n <= |s| && OccursAt(s[..n], pat, k)
    ensures OccursAt(s, pat, k)
  {
    assert s[..n][k..k + |pat|] == s[k..k + |pat|];
  }

  /**
   * A non-empty pattern whose first character does not recur in it; such a
   * pattern cannot overlap itself ("base64," and ", " are of this kind).
   */
  predicate Unbordered(pat: string) {
    pat != "" && forall d :: 0 < d < |pat| ==> pat[d] != pat[0]
  }

  /**
   * In `prefix + pat + rest` no occurrence of an unbordered `pat` starts
   * inside `prefix` when `prefix` alone has none.
   */
  lemma NoOccurrenceBeforeSeparator(prefix: string, pat: string, rest: string, k: nat)
    requires Unbordered(pat) && !Contains(prefix, pat) && k < |prefix|
    ensures !OccursAt(prefix + pat + rest, pat, k)
  {
    var s := prefix + pat + rest;
    if k + |pat| <= |prefix| {
      assert s[k..k + |pat|] == prefix[k..k + |pat|];
      assert !OccursAt(prefix, pat, k);
    } else if k + |pat| <= |s| {
      // a window starting at k would hold pat's first character at a
      // position where pat itself has a different one
      var d := |prefix| - k;
      assert s[k..k + |pat|][d] == s[|prefix|] == pat[0];
      assert pat[d] != pat[0];
    }
  }

  /** Text in which the first character of `pat` does not occur cannot contain `pat`. */
  lemma NotContainsWithoutFirst(s: string, pat: string)
    requires pat != "" && forall i :: 0 <= i < |s| ==> s[i] != pat[0]
    ensures !Contains(s, pat)
  {
    forall i: nat | i <= |s|
      ensures !OccursAt(s, pat, i)
    {
      if i + |pat| <= |s| {
        assert s[i..i + |pat|][0] == s[i];
      }
    }
  }

  /** Python's `s.split(sep)` for a non-empty separator. */
  function Split(s: string, sep: string): (r: seq<string>)
    requires sep != ""
    decreases |s|
    ensures |r| >= 1
    ensures |r| >= 2 <==> Contains(s, sep)
    ensures forall i :: 0 <= i < |r| ==> !Contains(r[i], sep)
  {
    match IndexOf(s, sep, 0)
    case None => [s]
    case Some(i) =>
      var head := s[..i];
      assert !Contains(head, sep) by {
        forall k: nat | k <= |head| && OccursAt(head, sep, k)
          ensures false
        {
          OccursInPrefix(s, sep, i, k);
        }
      }
      [head] + Split(s[i + |sep|..], sep)
  }

  /** Python's `sep.join(parts)`. */
  function Join(parts: seq<string>, sep: string): string
    decreases |parts|
  {
    if |parts| == 0 then ""
    else if |parts| == 1 then parts[0]
    else parts[0] + sep + Join(parts[1..], sep)
  }

  /** A join starts with its first part, and of non-empty parts it is empty only when there are none. */
  lemma JoinStartsWithFirst(parts: seq<string>, sep: string)
    ensures parts != [] ==> parts[0] <= Join(parts, sep)
    ensures (forall i :: 0 <= i < |parts| ==> parts[i] != "") ==> (Join(parts, sep) == "" <==> parts == [])
  {
    if |parts| >= 2 {
      assert Join(parts, sep) == parts[0] + (sep + Join(parts[1..], sep));
    }
  }

  /** Joining the parts of a split with its separator gives back the text. */
  lemma {:induction false} JoinSplit(s: string, sep: string)
    requires sep != ""
    ensures Join(Split(s, sep), sep) == s
    decreases |s|
  {
    match IndexOf(s, sep, 0)
    case None =>
    case Some(i) =>
      var rest := s[i + |sep|..];
      JoinSplit(rest, sep);
      var parts := [s[..i]] + Split(rest, sep);
      assert parts[1..] == Split(rest, sep);
      assert s[i..i + |sep|] == sep;
      assert s == s[..i] + sep + rest;
  }

  /** Join of two or more parts: the first two around a separator, then the rest. */
  lemma JoinFirstTwo(parts: seq<string>, sep: string)
    requires |parts| >= 2
    ensures Join(parts, sep) == parts[0] + sep + parts[1] + (if |parts| > 2 then sep + Join(parts[2..], sep) else "")
  {
    var rest := parts[1..];
    var head := parts[0] + sep;
    assert Join(parts, sep) == head + Join(rest, sep);
    if |parts| > 2 {
      var j := Join(parts[2..], sep);
      assert Join(rest, sep) == parts[1] + sep + j by {
        assert rest[0] == parts[1] && rest[1..] == parts[2..];
      }
      assert head + (parts[1] + sep + j) == head + parts[1] + (sep + j);
    } else {
      assert Join(rest, sep) == parts[1] by {
        assert rest[0] == parts[1];
      }
    }
  }

  /** Text without the separator splits into itself alone. */
  lemma SplitWithoutSeparator(s: string, sep: string)
    requires sep != "" && !Contains(s, sep)
    ensures Split(s, sep) == [s]
  {
  }

  /**
   * Splitting undoes joining, for an unbordered separator that occurs in
   * none of the parts.
   */
  lemma {:induction false} SplitJoin(parts: seq<string>, sep: string)
    requires Unbordered(sep) && parts != []
    requires forall i :: 0 <= i < |parts| ==> !Contains(parts[i], sep)
    ensures Split(Join(parts, sep), sep) == parts
    decreases |parts|
  {
    if |parts| == 1 {
      SplitWithoutSeparator(parts[0], sep);
    } else {
      var rest := Join(parts[1..], sep);
      var s := parts[0] + sep + rest;
      assert OccursAt(s, sep, |parts[0]|) by {
        assert s[|parts[0]|..|parts[0]| + |sep|] == sep;
      }
      forall k: nat | k < |parts[0]|
        ensures !OccursAt(s, sep, k)
      {
        NoOccurrenceBeforeSeparator(parts[0], sep, rest, k);
      }
      assert IndexOf(s, sep, 0) == Some(|parts[0]|);
      assert s[..|parts[0]|] == parts[0];
      assert s[|parts[0]| + |sep|..] == rest;
      SplitJoin(parts[1..], sep);
    }
  }
}
