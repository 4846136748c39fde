/** The JavaScript string and array built-ins the firewall rule relies on:
    `startsWith`, `includes`, `split`, `join` and `filter(Boolean)`. */
module Strings {

  /** `s.startsWith(prefix)`. */
  predicate StartsWith(s: string, prefix: string)
  {
    prefix <= s
  }

  /** `s.includes(pat)`: `pat` occurs somewhere in `s`. The empty pattern occurs in every string. */
  predicate Contains(s: string, pat: string)
  {
    pat <= s || (|s| > 0 && Contains(s[1..], pat))
  }

  /** `s.includes(pat)` holds exactly when `pat` starts `s` at some offset. */
  lemma {:induction false} ContainsIffOccurs(s: string, pat: string)
    ensures Contains(s, pat) <==> exists i :: 0 <= i <= |s| && pat <= s[i..]
  {
    if Contains(s, pat) {
      if pat <= s {
        assert s[0..] == s;
      } else {
        ContainsIffOccurs(s[1..], pat);
        var i :| 0 <= i <= |s[1..]| && pat <= s[1..][i..];
        assert s[1..][i..] == s[i + 1..];
      }
    }
    if exists i :: 0 <= i <= |s| && pat <= s[i..] {
      var i :| 0 <= i <= |s| && pat <= s[i..];
      if i > 0 {
        assert s[1..][i - 1..] == s[i..];
        ContainsIffOccurs(s[1..], pat);
      }
    }
  }

  /** Whatever surrounds a pattern, the pattern occurs in the result. */
  lemma ContainsInfix(a: string, pat: string, b: string)
    ensures Contains(a + pat + b, pat)
  {
    var s := a + pat + b;
    assert pat <= s[|a|..] by { assert s[|a|..] == pat + b; }
    ContainsIffOccurs(s, pat);
  }

  /** `s.split(c)` for a one-character separator: the pieces between the separators,
      one more piece than there are separators, so at least one. */
  function Split(s: string, c: char): (parts: seq<string>)
    ensures |parts| >= 1
    ensures forall k :: 0 <= k < |parts| ==> c !in parts[k]
  {
    if s == [] then [""]
    else
      var rest := Split(s[1..], c);
      if s[0] == c then [""] + rest
      else [[s[0]] + rest[0]] + rest[1..]
  }

  /** `parts.join(sep)`. */
  function Join(parts: seq<string>, sep: string): string
  {
    if |parts| == 0 then ""
    else if |parts| == 1 then parts[0]
    else parts[0] + sep + Join(parts[1..], sep)
  }

  /** Joining one more part adds the separator and that part at the end. */
  lemma {:induction false} JoinSnoc(parts: seq<string>, x: string, sep: string)
    requires |parts| >= 1
    ensures Join(parts + [x], sep) == Join(parts, sep) + sep + x
  {
    if |parts| > 1 {
      assert (parts + [x])[1..] == parts[1..] + [x];
      JoinSnoc(parts[1..], x, sep);
    }
  }

  /** Splitting a string and joining the pieces again gives back the string. */
  lemma {:induction false} JoinSplit(s: string, c: char)
    ensures Join(Split(s, c), [c]) == s
  {
    if s != [] {
      JoinSplit(s[1..], c);
      var rest := Split(s[1..], c);
      if s[0] != c && |rest| > 1 {
        assert ([[s[0]] + rest[0]] + rest[1..])[1..] == rest[1..];
      }
    }
  }

  /** Splitting at the first separator of a string: a first piece free of the separator
      becomes the first part. */
  lemma {:induction false} SplitAfter(p: string, c: char, t: string)
    requires c !in p
    ensures Split(p + [c] + t, c) == [p] + Split(t, c)
  {
    if p == [] {
      assert (p + [c] + t)[1..] == t;
    } else {
      assert (p + [c] + t)[0] == p[0] && (p + [c] + t)[1..] == p[1..] + [c] + t;
      SplitAfter(p[1..], c, t);
      assert [p[0]] + p[1..] == p;
    }
  }

  /** A string free of the separator is a single piece. */
  lemma {:induction false} SplitNone(p: string, c: char)
    requires c !in p
    ensures Split(p, c) == [p]
  {
    if p != [] {
      SplitNone(p[1..], c);
      assert [p[0]] + p[1..] == p;
    }
  }

  /** Joining parts that contain no separator and splitting again gives back the parts. */
  lemma {:induction false} SplitJoin(parts: seq<string>, c: char)
    requires |parts| >= 1
    requires forall k :: 0 <= k < |parts| ==> c !in parts[k]
    ensures Split(Join(parts, [c]), c) == parts
  {
    if |parts| == 1 {
      SplitNone(parts[0], c);
    } else {
      SplitJoin(parts[1..], c);
      SplitAfter(parts[0], c, Join(parts[1..], [c]));
      assert parts == [parts[0]] + parts[1..];
    }
  }

  /** `parts.filter(Boolean)`: the non-empty parts, in their order. */
  function NonEmpty(parts: seq<string>): (r: seq<string>)
    ensures |r| <= |parts|
    ensures forall k :: 0 <= k < |r| ==> r[k] != "" && r[k] in parts
  {
    if parts == [] then []
    else if parts[0] == "" then NonEmpty(parts[1..])
    else [parts[0]] + NonEmpty(parts[1..])
  }

  /** Filtering distributes over concatenation. */
  lemma {:induction false} NonEmptyAppend(a: seq<string>, b: seq<string>)
    ensures NonEmpty(a + b) == NonEmpty(a) + NonEmpty(b)
  {
    if a != [] {
      assert (a + b)[0] == a[0] && (a + b)[1..] == a[1..] + b;
      NonEmptyAppend(a[1..], b);
    } else {
      assert a + b == b;
    }
  }

  /** Filtering parts that are all non-empty keeps them all. */
  lemma {:induction false} NonEmptyKeepsAll(parts: seq<string>)
    requires forall k :: 0 <= k < |parts| ==> parts[k] != ""
    ensures NonEmpty(parts) == parts
  {
    if parts != [] {
      NonEmptyKeepsAll(parts[1..]);
    }
  }
}
