/** File paths: separator normalisation, splitting into segments, and the resolution of a
    relative import specifier against the directory of the importing file. */
module Paths {
  import opened Strings

  /** `path.replace(/\\/g, '/')`: every backslash becomes a slash. */
  function Normalize(path: string): (r: string)
    ensures |r| == |path|
    ensures forall i :: 0 <= i < |path| ==> r[i] == if path[i] == '\\' then '/' else path[i]
  {
    seq(|path|, i requires 0 <= i < |path| => if path[i] == '\\' then '/' else path[i])
  }

  /** A normalised path contains no backslash. */
  lemma NormalizeNoBackslash(path: string)
    ensures '\\' !in Normalize(path)
  {
    var r := Normalize(path);
    assert forall i :: 0 <= i < |r| ==> r[i] != '\\';
  }

  /** Normalising twice is normalising once. */
  lemma NormalizeIdempotent(path: string)
    ensures Normalize(Normalize(path)) == Normalize(path)
  {
  }

  /** A path without backslashes is left as it is. */
  lemma NormalizeKeeps(path: string)
    requires '\\' !in path
    ensures Normalize(path) == path
  {
  }

  /** `s.split('/').filter(Boolean)`: the non-empty segments of a path. */
  function Segments(s: string): seq<string>
  {
    NonEmpty(Split(s, '/'))
  }

  /** The directory of a file as segments: the segments of the normalised path without the
      last one (`pathParts.slice(0, -1)`, which is empty when there are no segments). */
  function Directory(filePath: string): seq<string>
  {
    var parts := Segments(Normalize(filePath));
    if |parts| == 0 then [] else parts[..|parts| - 1]
  }

  /** One segment of a relative specifier applied to the stack of resolved segments:
      `..` pops unless the stack is empty, `.` does nothing, anything else is pushed. */
  function Step(stack: seq<string>, part: string): seq<string>
  {
    if part == ".." then (if |stack| > 0 then stack[..|stack| - 1] else stack)
    else if part != "." then stack + [part]
    else stack
  }

  /** The stack left after applying the segments in order. */
  function Resolve(stack: seq<string>, parts: seq<string>): seq<string>
    decreases |parts|
  {
    if parts == [] then stack else Resolve(Step(stack, parts[0]), parts[1..])
  }

  /** `'/' + resolvedParts.join('/') + '/'` for the specifier resolved against the file's directory. */
  function ResolvedPath(filePath: string, importPath: string): string
  {
    "/" + Join(Resolve(Directory(filePath), Segments(importPath)), "/") + "/"
  }

  /** The relative resolution of the rule: a stack of segments that starts as the importing
      file's directory and is popped and pushed once per segment of the specifier. */
  method ResolveRelative(filePath: string, importPath: string) returns (resolved: string)
    ensures resolved == ResolvedPath(filePath, importPath)
  {
    var normalized := Normalize(filePath);
    var pathParts := Segments(normalized);
    var fileDir := if |pathParts| == 0 then [] else pathParts[..|pathParts| - 1];
    var importParts := Segments(importPath);
    var resolvedParts := fileDir;
    for i := 0 to |importParts|
      invariant Resolve(resolvedParts, importParts[i..]) == Resolve(fileDir, importParts)
    {
      var part := importParts[i];
      assert importParts[i..][1..] == importParts[i + 1..];
      if part == ".." {
        if |resolvedParts| > 0 {
          resolvedParts := resolvedParts[..|resolvedParts| - 1];
        }
      } else if part != "." {
        resolvedParts := resolvedParts + [part];
      }
    }
    resolved := "/" + Join(resolvedParts, "/") + "/";
  }

  /** A resolved path begins and ends with a slash. */
  lemma ResolvedPathShape(filePath: string, importPath: string)
    ensures var r := ResolvedPath(filePath, importPath); |r| >= 2 && r[0] == '/' && r[|r| - 1] == '/'
  {
  }

  /** Resolving two runs of segments one after the other is resolving their concatenation. */
  lemma {:induction false} ResolveAppend(stack: seq<string>, a: seq<string>, b: seq<string>)
    ensures Resolve(stack, a + b) == Resolve(Resolve(stack, a), b)
    decreases |a|
  {
    if a == [] {
      assert a + b == b;
    } else {
      assert (a + b)[0] == a[0] && (a + b)[1..] == a[1..] + b;
      ResolveAppend(Step(stack, a[0]), a[1..], b);
    }
  }

  /** Segments other than `.` and `..` descend: they are pushed in order. */
  lemma {:induction false} ResolveDescends(stack: seq<string>, parts: seq<string>)
    requires forall k :: 0 <= k < |parts| ==> parts[k] != "." && parts[k] != ".."
    ensures Resolve(stack, parts) == stack + parts
    decreases |parts|
  {
    if parts != [] {
      ResolveDescends(stack + [parts[0]], parts[1..]);
      assert stack + [parts[0]] + parts[1..] == stack + parts;
    }
  }

  /** `n` segments `..` in a row drop `n` segments, and stop at the root: climbing above it
      is silently clamped. */
  lemma {:induction false} ResolveClimbs(stack: seq<string>, n: nat)
    ensures Resolve(stack, seq(n, _ => "..")) == stack[..if n <= |stack| then |stack| - n else 0]
  {
    var ups := seq(n, _ => "..");
    if n > 0 {
      assert ups[0] == ".." && ups[1..] == seq(n - 1, _ => "..");
      ResolveClimbs(Step(stack, ".."), n - 1);
    }
  }

  /** A specifier of `n` segments `..` followed by plain segments climbs `n` directories and
      then descends along the plain segments. */
  lemma ClimbThenDescend(stack: seq<string>, n: nat, down: seq<string>)
    requires n <= |stack|
    requires forall k :: 0 <= k < |down| ==> down[k] != "." && down[k] != ".."
    ensures Resolve(stack, seq(n, _ => "..") + down) == stack[..|stack| - n] + down
  {
    ResolveAppend(stack, seq(n, _ => ".."), down);
    ResolveClimbs(stack, n);
    ResolveDescends(stack[..|stack| - n], down);
  }

  /** A specifier `./` followed by plain segments descends from the importing directory. */
  lemma StayThenDescend(stack: seq<string>, down: seq<string>)
    requires forall k :: 0 <= k < |down| ==> down[k] != "." && down[k] != ".."
    ensures Resolve(stack, ["."] + down) == stack + down
  {
    assert (["."] + down)[0] == "." && (["."] + down)[1..] == down;
    ResolveDescends(stack, down);
  }

  /** Resolution never yields more segments than the stack and the specifier together. */
  lemma {:induction false} ResolveLength(stack: seq<string>, parts: seq<string>)
    ensures |Resolve(stack, parts)| <= |stack| + |parts|
    decreases |parts|
  {
    if parts != [] {
      ResolveLength(Step(stack, parts[0]), parts[1..]);
    }
  }

  /** Segments are non-empty and contain no slash. */
  predicate WellFormedSegments(segs: seq<string>)
  {
    forall k :: 0 <= k < |segs| ==> segs[k] != "" && '/' !in segs[k]
  }

  lemma SegmentsWellFormed(s: string)
    ensures WellFormedSegments(Segments(s))
  {
  }

  lemma {:induction false} ResolveWellFormed(stack: seq<string>, parts: seq<string>)
    requires WellFormedSegments(stack) && WellFormedSegments(parts)
    ensures WellFormedSegments(Resolve(stack, parts))
    decreases |parts|
  {
    if parts != [] {
      ResolveWellFormed(Step(stack, parts[0]), parts[1..]);
    }
  }

  /** Splitting a resolved path into segments gives back the resolved stack: the path the rule
      matches patterns against stands for exactly the segments it resolved. */
  lemma ResolvedPathSegments(filePath: string, importPath: string)
    ensures Segments(ResolvedPath(filePath, importPath)) == Resolve(Directory(filePath), Segments(importPath))
  {
    var stack := Resolve(Directory(filePath), Segments(importPath));
    var parts := Segments(Normalize(filePath));
    SegmentsWellFormed(Normalize(filePath));
    SegmentsWellFormed(importPath);
    ResolveWellFormed(Directory(filePath), Segments(importPath));
    if stack == [] {
      var all := ["", "", ""];
      assert Join(all, "/") == "//";
      SplitJoin(all, '/');
    } else {
      var all := [""] + (stack + [""]);
      assert Join(all, "/") == "/" + Join(stack, "/") + "/" by {
        JoinCons(stack + [""]);
        JoinSnoc(stack, "", "/");
      }
      SplitJoin(all, '/');
      NonEmptyAppend([""], stack + [""]);
      NonEmptyAppend(stack, [""]);
      NonEmptyKeepsAll(stack);
    }
  }

  lemma JoinCons(parts: seq<string>)
    requires |parts| >= 1
    ensures Join([""] + parts, "/") == "/" + Join(parts, "/")
  {
    assert ([""] + parts)[1..] == parts;
  }

  /** Splitting slash-free parts joined with slashes gives back the parts, without the empty ones. */
  lemma SegmentsOfJoin(parts: seq<string>)
    requires |parts| >= 1 && SlashFree(parts)
    ensures Segments(Join(parts, "/")) == NonEmpty(parts)
  {
    SplitJoin(parts, '/');
  }

  /** The segments of `/a/b/c` are `a`, `b` and `c`, without the empty ones. */
  lemma SegmentsOfSlashed(segs: seq<string>)
    requires |segs| >= 1 && SlashFree(segs)
    ensures Segments(Slashed(segs)) == NonEmpty(segs)
  {
    SlashedIsJoin(segs);
    JoinCons(segs);
    assert SlashFree([""] + segs);
    SegmentsOfJoin([""] + segs);
    assert ([""] + segs)[1..] == segs;
  }

  /** A path built from segments without backslashes has none. */
  lemma {:induction false} SlashedBackslashFree(segs: seq<string>)
    requires forall k :: 0 <= k < |segs| ==> '\\' !in segs[k]
    ensures '\\' !in Slashed(segs)
  {
    if segs != [] {
      SlashedBackslashFree(segs[1..]);
    }
  }

  /** A path written as its segments, each preceded by a slash: `/a/b/c` for `[a, b, c]`. */
  function Slashed(segs: seq<string>): string
  {
    if segs == [] then "" else "/" + segs[0] + Slashed(segs[1..])
  }

  predicate SlashFree(segs: seq<string>)
  {
    forall k :: 0 <= k < |segs| ==> '/' !in segs[k]
  }

  lemma {:induction false} SlashedSnoc(segs: seq<string>, x: string)
    ensures Slashed(segs + [x]) == Slashed(segs) + "/" + x
  {
    if segs != [] {
      assert (segs + [x])[1..] == segs[1..] + [x];
      SlashedSnoc(segs[1..], x);
    }
  }

  lemma {:induction false} SlashedIsJoin(segs: seq<string>)
    requires |segs| >= 1
    ensures Slashed(segs) == "/" + Join(segs, "/")
  {
    if |segs| > 1 {
      SlashedIsJoin(segs[1..]);
    }
  }

  /** Segments `ps` occur in `qs` from position `k` on, and at least one more segment follows. */
  predicate RunAt(qs: seq<string>, ps: seq<string>, k: nat)
  {
    k + |ps| < |qs| && qs[k..k + |ps|] == ps
  }

  /** A slash-delimited pattern such as `/src/app/` occurs as a substring of a slash-separated path
      exactly when its segments occur consecutively among the path's segments and are followed
      by at least one more segment: for such patterns the rule's substring test is a test on whole
      directory names, and `/src/app/` does not match `/src/apps/`. */
  lemma {:induction false} SlashedContains(qs: seq<string>, ps: seq<string>)
    requires |ps| >= 1 && SlashFree(ps) && SlashFree(qs)
    ensures Contains(Slashed(qs), Slashed(ps) + "/") <==> exists k :: 0 <= k && RunAt(qs, ps, k)
    decreases |qs|
  {
    var pat := Slashed(ps) + "/";
    assert pat[0] == '/';
    if qs != [] {
      var s := Slashed(qs);
      var rest := qs[1..];
      assert SlashFree(rest);
      SlashedPrefix(ps, qs);
      assert s[1..] == qs[0] + Slashed(rest);
      SkipSegment(qs[0], Slashed(rest), pat);
      SlashedContains(rest, ps);
      forall k: nat ensures RunAt(rest, ps, k) <==> RunAt(qs, ps, k + 1) {
        if k + |ps| < |rest| {
          assert rest[k..k + |ps|] == qs[k + 1..k + 1 + |ps|];
        }
      }
      if exists k :: 0 <= k && RunAt(qs, ps, k) {
        var k :| 0 <= k && RunAt(qs, ps, k);
        if k > 0 {
          assert RunAt(rest, ps, k - 1);
        }
      }
    }
  }

  /** The pattern starts the path exactly when its segments start the path's segments. */
  lemma {:induction false} SlashedPrefix(ps: seq<string>, qs: seq<string>)
    requires |ps| >= 1 && SlashFree(ps) && SlashFree(qs)
    ensures Slashed(ps) + "/" <= Slashed(qs) <==> RunAt(qs, ps, 0)
    decreases |ps|
  {
    var pat := Slashed(ps) + "/";
    if qs != [] {
      var tail := Slashed(ps[1..]) + "/";
      var rest := Slashed(qs[1..]);
      assert pat == "/" + (ps[0] + tail);
      assert Slashed(qs) == "/" + (qs[0] + rest);
      PrefixAfterChar('/', ps[0] + tail, qs[0] + rest);
      assert rest == "" || rest[0] == '/';
      SegmentPrefix(ps[0], qs[0], tail, rest);
      if |ps| == 1 {
        assert tail == "/";
        assert qs[..1] == [qs[0]];
      } else {
        assert SlashFree(qs[1..]);
        SlashedPrefix(ps[1..], qs[1..]);
        if RunAt(qs, ps, 0) {
          assert qs[1..][..|ps| - 1] == qs[1..|ps|] == ps[1..];
        }
        if ps[0] == qs[0] && RunAt(qs[1..], ps[1..], 0) {
          assert qs[..|ps|] == [qs[0]] + qs[1..][..|ps| - 1];
          assert ps == [ps[0]] + ps[1..];
        }
      }
    }
  }

  /** Two strings that begin with the same character start alike exactly when what follows
      that character does. */
  lemma PrefixAfterChar(c: char, a: string, b: string)
    ensures [c] + a <= [c] + b <==> a <= b
  {
    if [c] + a <= [c] + b {
      assert a == ([c] + a)[1..] && b[..|a|] == ([c] + b)[1..|a| + 1];
    }
  }

  /** The index of the first slash of `s`, or `|s|` when there is none. */
  function FirstSlash(s: string): nat
  {
    if s == [] || s[0] == '/' then 0 else 1 + FirstSlash(s[1..])
  }

  lemma {:induction false} FirstSlashAfter(p: string, x: string)
    requires '/' !in p && (x == "" || x[0] == '/')
    ensures FirstSlash(p + x) == |p|
  {
    if p == [] {
      assert p + x == x;
    } else {
      assert (p + x)[0] == p[0] && (p + x)[1..] == p[1..] + x;
      FirstSlashAfter(p[1..], x);
    }
  }

  lemma {:induction false} FirstSlashOfPrefix(a: string, b: string)
    requires a <= b && FirstSlash(a) < |a|
    ensures FirstSlash(b) == FirstSlash(a)
  {
    if a[0] != '/' {
      assert a[1..] <= b[1..];
      FirstSlashOfPrefix(a[1..], b[1..]);
    }
  }

  /** Two segments followed by slashed remainders start alike exactly when the segments are equal
      and the remainders start alike. */
  lemma SegmentPrefix(p: string, q: string, x: string, y: string)
    requires '/' !in p && '/' !in q
    requires |x| > 0 && x[0] == '/'
    requires y == "" || y[0] == '/'
    ensures p + x <= q + y <==> p == q && x <= y
  {
    if p + x <= q + y {
      FirstSlashAfter(p, x);
      FirstSlashAfter(q, y);
      FirstSlashOfPrefix(p + x, q + y);
      assert p == (p + x)[..|p|] && q == (q + y)[..|q|];
      assert x == (p + x)[|p|..] && y == (q + y)[|q|..];
    }
  }

  /** A pattern that begins with a slash occurs after a slash-free segment only where it occurs
      in what follows the segment. */
  lemma {:induction false} SkipSegment(q: string, t: string, pat: string)
    requires '/' !in q && |pat| > 0 && pat[0] == '/'
    ensures Contains(q + t, pat) <==> Contains(t, pat)
  {
    if q == [] {
      assert q + t == t;
    } else {
      assert (q + t)[0] == q[0];
      assert (q + t)[1..] == q[1..] + t;
      SkipSegment(q[1..], t, pat);
    }
  }
}
