/**
 Slash-separated paths, held as the strings of their bytes, and the lexical check of symbolic
 links (scripts/release/build_release_candidate.py, scripts/release/verify_release_candidate.py).
 */
module Paths {

  /** The pieces between slashes: one more than there are slashes. */
  function Split(s: string): (pieces: seq<string>)
    ensures |pieces| >= 1
  {
    if s == "" then [""]
    else if s[0] == '/' then [""] + Split(s[1..])
    else var rest := Split(s[1..]); [[s[0]] + rest[0]] + rest[1..]
  }

  function Join(pieces: seq<string>): string
    requires pieces != []
  {
    if |pieces| == 1 then pieces[0] else pieces[0] + "/" + Join(pieces[1..])
  }

  predicate IsOrdinary(piece: string) {
    piece != "" && piece != "." && piece != ".."
  }

  /** A relative name of ordinary pieces. */
  predicate IsSafeName(name: string) {
    forall piece <- Split(name) :: IsOrdinary(piece)
  }

  /** `PurePosixPath(p).parts` of a relative path: empty and dot pieces are dropped. */
  function Parts(p: string): seq<string> {
    Drop(Split(p))
  }

  function Drop(pieces: seq<string>): seq<string> {
    if pieces == [] then []
    else (if pieces[0] == "" || pieces[0] == "." then [] else [pieces[0]]) + Drop(pieces[1..])
  }

  function ParentParts(p: string): seq<string> {
    if Parts(p) == [] then [] else Parts(p)[..|Parts(p)| - 1]
  }

  // ----- splitting and joining -----

  lemma {:induction false} SplitOfOnePiece(s: string)
    requires '/' !in s
    ensures Split(s) == [s]
  {
    if s != "" {
      SplitOfOnePiece(s[1..]);
      assert s == [s[0]] + s[1..];
    }
  }

  lemma {:induction false} SplitAtSlash(s: string, t: string)
    ensures Split(s + "/" + t) == Split(s) + Split(t)
  {
    var whole := s + "/" + t;
    if s == "" {
      assert whole[1..] == t;
    } else {
      assert whole[1..] == s[1..] + "/" + t;
      SplitAtSlash(s[1..], t);
    }
  }

  lemma {:induction false} JoinInvertsSplit(s: string)
    ensures Join(Split(s)) == s
  {
    if s != "" {
      JoinInvertsSplit(s[1..]);
      assert s == [s[0]] + s[1..];
      var rest := Split(s[1..]);
      if s[0] == '/' {
        assert ([""] + rest)[1..] == rest;
      } else {
        var all := [[s[0]] + rest[0]] + rest[1..];
        assert all[1..] == rest[1..];
      }
    }
  }

  lemma SafeNameUnder(root: string, path: string)
    requires '/' !in root && IsOrdinary(root)
    ensures IsSafeName(root) && (IsSafeName(root + "/" + path) <==> IsSafeName(path))
  {
    SplitOfOnePiece(root);
    SplitAtSlash(root, path);
    assert forall piece :: piece in Split(root + "/" + path) <==> piece == root || piece in Split(path);
  }

  // ----- symbolic links -----

  /** How deep below the root a walk of the first `k` parts leads, starting at depth `start`. */
  function Depth(start: int, parts: seq<string>, k: nat): int
    requires k <= |parts|
  {
    if k == 0 then start else Depth(start, parts, k - 1) + (if parts[k - 1] == ".." then -1 else 1)
  }

  /** Following the target from the link's directory never climbs above the root. */
  ghost predicate StaysInside(path: string, target: string) {
    forall k :: 0 <= k <= |Parts(target)| ==> Depth(|ParentParts(path)|, Parts(target), k) >= 0
  }

  ghost predicate IsSafeLink(path: string, target: string) {
    target != "" && '\0' !in target && target[0] != '/' && StaysInside(path, target)
  }

  method SafeSymlinkTarget(path: string, target: string) returns (safe: bool)
    ensures safe <==> IsSafeLink(path, target)
  {
    if target == "" || '\0' in target || target[0] == '/' { return false; }
    var stack := ParentParts(path);
    var parts := Parts(target);
    for i := 0 to |parts|
      invariant |stack| == Depth(|ParentParts(path)|, parts, i)
      invariant forall k :: 0 <= k <= i ==> Depth(|ParentParts(path)|, parts, k) >= 0
    {
      if parts[i] == ".." {
        if stack == [] {
          assert Depth(|ParentParts(path)|, parts, i + 1) < 0;
          return false;
        }
        stack := stack[..|stack| - 1];
      } else {
        stack := stack + [parts[i]];
      }
    }
    safe := true;
  }

  // ----- parts -----

  lemma {:induction false} DropConcat(xs: seq<string>, ys: seq<string>)
    ensures Drop(xs + ys) == Drop(xs) + Drop(ys)
  {
    if xs == [] {
      assert xs + ys == ys;
    } else {
      assert (xs + ys)[1..] == xs[1..] + ys;
      DropConcat(xs[1..], ys);
    }
  }

  /** A single piece is a part unless it is empty or a dot, and a slash separates parts. */
  lemma PartsAre(s: string, t: string)
    ensures '/' !in s ==> Parts(s) == if s == "" || s == "." then [] else [s]
    ensures Parts(s + "/" + t) == Parts(s) + Parts(t)
  {
    if '/' !in s {
      SplitOfOnePiece(s);
      assert Drop([s]) == (if s == "" || s == "." then [] else [s]) + Drop([s][1..]);
    }
    SplitAtSlash(s, t);
    DropConcat(Split(s), Split(t));
  }

  /** The directory of a file is what comes before its name. */
  lemma ParentIs(dir: string, name: string)
    requires '/' !in name && IsOrdinary(name)
    ensures ParentParts(dir + "/" + name) == Parts(dir) && ParentParts(name) == []
  {
    PartsAre(dir, name);
    PartsAre(name, "");
  }

  lemma {:induction false} DropKeeps(pieces: seq<string>, piece: string)
    ensures piece in Drop(pieces) <==> piece in pieces && piece != "" && piece != "."
  {
    if pieces != [] { DropKeeps(pieces[1..], piece); }
  }

  /** Going up `n` directories and then to `name`. */
  function Climb(n: nat, name: string): string {
    if n == 0 then name else ".." + "/" + Climb(n - 1, name)
  }

  /** `n` times the part that goes up, and then the name. */
  predicate IsClimb(parts: seq<string>, n: nat, name: string) {
    |parts| == n + 1 && parts[n] == name && forall i :: 0 <= i < n ==> parts[i] == ".."
  }

  lemma OneMoreClimb(parts: seq<string>, n: nat, name: string)
    requires IsClimb(parts, n, name)
    ensures IsClimb([".."] + parts, n + 1, name)
  {}

  lemma UpOnce(rest: string)
    ensures Parts(".." + "/" + rest) == [".."] + Parts(rest)
  {
    assert '/' !in ".." && ".." != "" && ".." != "." by { assert |".."| == 2 && |"."| == 1; }
    PartsAre("..", rest);
  }

  lemma {:induction false} ClimbParts(n: nat, name: string)
    requires '/' !in name && IsOrdinary(name)
    ensures IsClimb(Parts(Climb(n, name)), n, name)
  {
    if n == 0 {
      PartsAre(name, "");
    } else {
      ClimbParts(n - 1, name);
      UpOnce(Climb(n - 1, name));
      OneMoreClimb(Parts(Climb(n - 1, name)), n - 1, name);
    }
  }

  lemma {:induction false} DepthOfClimb(start: int, parts: seq<string>, k: nat)
    requires k <= |parts| && forall i :: 0 <= i < k ==> parts[i] == ".."
    ensures Depth(start, parts, k) == start - k
  {
    if k > 0 { DepthOfClimb(start, parts, k - 1); }
  }

  lemma {:induction false} DepthAfterFirst(start: int, first: string, parts: seq<string>, k: nat)
    requires k <= |parts|
    ensures Depth(start, [first] + parts, k + 1) == Depth(start + (if first == ".." then -1 else 1), parts, k)
  {
    if k > 0 {
      DepthAfterFirst(start, first, parts, k - 1);
      assert ([first] + parts)[k] == parts[k - 1];
    } else {
      assert Depth(start, [first] + parts, 1) == Depth(start, [first] + parts, 0) + (if first == ".." then -1 else 1);
    }
  }

  ghost predicate NeverClimbsOut(start: int, parts: seq<string>) {
    forall k :: 0 <= k <= |parts| ==> Depth(start, parts, k) >= 0
  }

  lemma AfterFirst(start: nat, first: string, parts: seq<string>)
    ensures NeverClimbsOut(start, [first] + parts)
       <==> NeverClimbsOut(start + (if first == ".." then -1 else 1), parts)
  {
    var all, next := [first] + parts, start + (if first == ".." then -1 else 1);
    forall k | 0 <= k <= |parts| ensures Depth(start, all, 1 + k) == Depth(next, parts, k) {
      DepthAfterFirst(start, first, parts, k);
    }
    if NeverClimbsOut(next, parts) {
      forall k | 0 <= k <= |all| ensures Depth(start, all, k) >= 0 {
        if k > 0 { assert Depth(start, all, 1 + (k - 1)) == Depth(next, parts, k - 1); }
      }
    }
  }

  lemma ClimbingOutIff(start: nat, parts: seq<string>, n: nat)
    requires |parts| == n + 1 && parts[n] != ".." && forall i :: 0 <= i < n ==> parts[i] == ".."
    ensures NeverClimbsOut(start, parts) <==> n <= start
  {
    forall k | 0 <= k <= n ensures Depth(start, parts, k) == start - k { DepthOfClimb(start, parts, k); }
    assert Depth(start, parts, n) == start - n && Depth(start, parts, n + 1) == start - n + 1;
  }

  /** A link may climb as far as its own directory is deep, and once more after it has gone down. */
  lemma ClimbIsSafeIff(path: string, n: nat, name: string)
    requires '/' !in name && '\0' !in name && IsOrdinary(name)
    ensures IsSafeLink(path, Climb(n, name)) <==> n <= |ParentParts(path)|
    ensures IsSafeLink(path, name + "/" + Climb(n, name)) <==> n <= |ParentParts(path)| + 1
  {
    var target, depth := Climb(n, name), |ParentParts(path)|;
    ClimbParts(n, name);
    ClimbIsPlain(n, name);
    ClimbingOutIff(depth, Parts(target), n);
    ClimbingOutIff(depth + 1, Parts(target), n);
    PartsAre(name, target);
    AfterFirst(depth, name, Parts(target));
    assert StaysInside(path, target) <==> NeverClimbsOut(depth, Parts(target));
    assert StaysInside(path, name + "/" + target) <==> NeverClimbsOut(depth, [name] + Parts(target));
  }

  lemma {:induction false} ClimbIsPlain(n: nat, name: string)
    requires '/' !in name && '\0' !in name && name != ""
    ensures Climb(n, name) != "" && Climb(n, name)[0] != '/' && '\0' !in Climb(n, name)
  {
    if n > 0 { ClimbIsPlain(n - 1, name); }
  }

  /** Targets that are empty, absolute or hold a NUL are not safe. */
  lemma UnsafeTargets(path: string, front: string, rest: string)
    ensures !IsSafeLink(path, "") && !IsSafeLink(path, "/" + rest) && !IsSafeLink(path, front + "\0" + rest)
  {}
}
