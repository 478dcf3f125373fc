/** The walks over directory parents in pass 3 of fsck.ocfs2 (fsck.ocfs2/pass3.c). */
module DirParents {
  import opened Basics
  import opened Oracle

  /** The directory each directory's entry was found in, or 0 if none was. */
  type Parents = map<nat, nat>

  // ---------------------------------------------------------------------
  // Chains of parents

  /** At most `k` steps lead from `d` to one of `tops`. */
  ghost predicate Reaches(p: Parents, tops: set<nat>, d: nat, k: nat)
    decreases k
  {
    d in p && (d in tops || (p[d] != 0 && k > 0 && Reaches(p, tops, p[d], k - 1)))
  }

  ghost predicate Rooted(p: Parents, tops: set<nat>, d: nat) {
    exists k: nat :: Reaches(p, tops, d, k)
  }

  /** All of `s` is rooted. */
  ghost predicate AllRooted(p: Parents, tops: set<nat>, s: set<nat>) {
    forall d :: d in s ==> Rooted(p, tops, d)
  }

  /** `d` is below `e`, and not one of `tops`. */
  ghost predicate Below(p: Parents, tops: set<nat>, d: nat, e: nat) {
    d in p && d !in tops && p[d] == e && e != 0 && e in p
  }

  /** Each directory of `path` is below the next one. */
  ghost predicate Path(p: Parents, tops: set<nat>, path: seq<nat>) {
    && |path| > 0 && path[|path| - 1] in p
    && forall i :: 0 <= i < |path| - 1 ==> Below(p, tops, path[i], path[i + 1])
  }

  ghost predicate Leads(p: Parents, tops: set<nat>, d: nat, e: nat) {
    exists path: seq<nat> :: Path(p, tops, path) && path[0] == d && path[|path| - 1] == e
  }

  /** A path that ends where it starts, without `tops`. */
  ghost predicate Circle(p: Parents, tops: set<nat>, c: seq<nat>) {
    Path(p, tops, c) && Distinct(c) && Below(p, tops, c[|c| - 1], c[0])
  }

  ghost predicate OnCircle(p: Parents, tops: set<nat>, d: nat) {
    exists c: seq<nat> :: Circle(p, tops, c) && c[0] == d
  }

  /** The `i`th directory is on a circle, and no earlier one leads there. */
  ghost predicate LeftAlone(p: Parents, tops: set<nat>, order: seq<nat>, i: nat) {
    i < |order| && OnCircle(p, tops, order[i]) && forall j :: 0 <= j < i ==> !Leads(p, tops, order[j], order[i])
  }

  lemma PathKnown(p: Parents, tops: set<nat>, path: seq<nat>)
    requires Path(p, tops, path)
    ensures Elements(path) <= p.Keys
  {
    forall d | d in path
      ensures d in p
    {
      var i :| 0 <= i < |path| && path[i] == d;
      if i < |path| - 1 {
        assert Below(p, tops, path[i], path[i + 1]);
      }
    }
  }

  /** A path below a rooted directory is rooted. */
  lemma {:induction false} PathRooted(p: Parents, tops: set<nat>, path: seq<nat>, i: nat)
    requires Path(p, tops, path) && Rooted(p, tops, path[|path| - 1]) && i < |path|
    ensures Rooted(p, tops, path[i])
    decreases |path| - i
  {
    if i < |path| - 1 {
      PathRooted(p, tops, path, i + 1);
      assert Below(p, tops, path[i], path[i + 1]);
      var k: nat :| Reaches(p, tops, path[i + 1], k);
      assert Reaches(p, tops, path[i], k + 1);
    }
  }

  /** Nothing on a circle is rooted. */
  lemma {:induction false} CircleAdrift(p: Parents, tops: set<nat>, c: seq<nat>, i: nat, k: nat)
    requires Circle(p, tops, c) && i < |c|
    ensures !Reaches(p, tops, c[i], k)
    decreases k
  {
    var next := if i < |c| - 1 then i + 1 else 0;
    assert Below(p, tops, c[i], c[next]);
    if k > 0 {
      CircleAdrift(p, tops, c, next, k - 1);
    }
  }

  // ---------------------------------------------------------------------
  // Moving a directory to lost+found

  lemma {:induction false} ReachesKept(p: Parents, tops: set<nat>, o: nat, lf: nat, d: nat, k: nat)
    requires !Rooted(p, tops, o) && Reaches(p, tops, d, k)
    ensures Reaches(p[o := lf], tops, d, k)
    decreases k
  {
    if d !in tops {
      ReachesKept(p, tops, o, lf, p[d], k - 1);
    }
  }

  /** What was rooted stays rooted, and the directory becomes rooted. */
  lemma MovedRooted(p: Parents, tops: set<nat>, o: nat, lf: nat)
    requires !Rooted(p, tops, o) && lf != 0 && Rooted(p, tops, lf)
    ensures Rooted(p[o := lf], tops, o)
    ensures forall d :: Rooted(p, tops, d) ==> Rooted(p[o := lf], tops, d)
  {
    forall d | Rooted(p, tops, d)
      ensures Rooted(p[o := lf], tops, d)
    {
      var k: nat :| Reaches(p, tops, d, k);
      ReachesKept(p, tops, o, lf, d, k);
    }
    var k: nat :| Reaches(p[o := lf], tops, lf, k);
    assert Reaches(p[o := lf], tops, o, k + 1);
  }

  // ---------------------------------------------------------------------
  // The walk

  /** What a walk from `dir` has passed: nothing marked before, and nothing twice. */
  ghost predicate Climbed(p: Parents, tops: set<nat>, marked: set<nat>, path: seq<nat>, dir: nat) {
    && Path(p, tops, path) && path[0] == dir && Distinct(path[..|path| - 1])
    && forall i :: 0 <= i < |path| - 1 ==> path[i] !in marked
  }

  /** The end of a walk is marked before, or is its start again. */
  ghost predicate Meets(marked: set<nat>, path: seq<nat>) {
    |path| > 0 && (path[|path| - 1] in marked || (|path| > 1 && path[|path| - 1] == path[0]))
  }

  /** The end of a walk has no parent, or one that was passed, though not first. */
  ghost predicate Sticks(p: Parents, marked: set<nat>, path: seq<nat>) {
    && Distinct(path) && |path| > 0 && path[|path| - 1] in p && path[|path| - 1] !in marked
    && (p[path[|path| - 1]] == 0 || p[path[|path| - 1]] in path[1..])
  }

  /** A walk under way: it marked what it passed, and left its number on all of that but
      the start. */
  ghost predicate Walking(p: Parents, tops: set<nat>, marked: set<nat>, connected: set<nat>,
      loopOf: map<nat, nat>, loopNo: nat, path: seq<nat>, dir: nat)
  {
    && Climbed(p, tops, marked, path, dir) && loopOf.Keys == p.Keys && Distinct(path[1..])
    && connected == marked + Elements(path[..|path| - 1])
    && forall d :: d in loopOf ==> loopOf[d] <= loopNo && (loopOf[d] == loopNo <==> d in path[1..])
  }

  lemma Append(s: seq<nat>, x: nat)
    ensures Elements(s + [x]) == Elements(s) + {x}
    ensures Distinct(s) && x !in Elements(s) ==> Distinct(s + [x])
  {
    ElementsAppend(s, x);
    if x !in Elements(s) {
      assert forall i :: 0 <= i < |s| ==> s[i] in s;
    }
  }

  /** Where the walk has come to something not marked. */
  lemma WalkFresh(p: Parents, tops: set<nat>, marked: set<nat>, connected: set<nat>,
      loopOf: map<nat, nat>, loopNo: nat, path: seq<nat>, dir: nat)
    requires Walking(p, tops, marked, connected, loopOf, loopNo, path, dir) && path[|path| - 1] !in connected
    ensures Distinct(path) && path[|path| - 1] !in marked
    ensures connected + {path[|path| - 1]} == marked + Elements(path)
  {
    Append(path[..|path| - 1], path[|path| - 1]);
    assert path == path[..|path| - 1] + [path[|path| - 1]];
  }

  lemma WalkOn(p: Parents, tops: set<nat>, marked: set<nat>, connected: set<nat>,
      loopOf: map<nat, nat>, loopNo: nat, path: seq<nat>, dir: nat, par: nat)
    requires Walking(p, tops, marked, connected, loopOf, loopNo, path, dir) && path[|path| - 1] !in connected
    requires Below(p, tops, path[|path| - 1], par) && loopOf[par] != loopNo
    ensures Walking(p, tops, marked, connected + {path[|path| - 1]}, loopOf[par := loopNo], loopNo, path + [par], dir)
  {
    WalkFresh(p, tops, marked, connected, loopOf, loopNo, path, dir);
    var longer := path + [par];
    assert longer[..|longer| - 1] == path;
    assert longer[1..] == path[1..] + [par];
  }

  lemma WalkEnds(p: Parents, tops: set<nat>, marked: set<nat>, connected: set<nat>,
      loopOf: map<nat, nat>, loopNo: nat, path: seq<nat>, dir: nat)
    requires Walking(p, tops, marked, connected, loopOf, loopNo, path, dir) && path[|path| - 1] in connected
    ensures Meets(marked, path) && connected == marked + Elements(path)
  {
    var front := path[..|path| - 1];
    assert path == front + [path[|path| - 1]];
    if path[|path| - 1] !in marked {
      var i :| 0 <= i < |front| && front[i] == path[|path| - 1];
    }
  }

  /** Where a walk gets stuck nothing is rooted. */
  lemma StuckAdrift(p: Parents, tops: set<nat>, marked: set<nat>, path: seq<nat>, dir: nat)
    requires Climbed(p, tops, marked, path, dir) && Sticks(p, marked, path) && tops <= marked
    ensures !Rooted(p, tops, path[|path| - 1])
  {
    var dp := path[|path| - 1];
    if p[dp] == 0 {
      assert forall k: nat :: !Reaches(p, tops, dp, k);
    } else {
      var m :| 1 <= m < |path| && path[m] == p[dp];
      PathKnown(p, tops, path);
      assert path[m] in Elements(path);
      var c := path[m..];
      forall i | 0 <= i < |c| - 1
        ensures Below(p, tops, c[i], c[i + 1])
      {
        assert Below(p, tops, path[m + i], path[m + i + 1]);
      }
      assert Circle(p, tops, c);
      forall k: nat
        ensures !Reaches(p, tops, dp, k)
      {
        CircleAdrift(p, tops, c, |c| - 1, k);
      }
    }
  }

  /** A walk that comes to a directory marked before. */
  lemma WalkMeets(p: Parents, tops: set<nat>, marked: set<nat>, path: seq<nat>, dir: nat)
    requires Climbed(p, tops, marked, path, dir) && path[|path| - 1] in marked && AllRooted(p, tops, marked)
    ensures AllRooted(p, tops, marked + Elements(path))
  {
    forall d | d in Elements(path)
      ensures Rooted(p, tops, d)
    {
      var i :| 0 <= i < |path| && path[i] == d;
      PathRooted(p, tops, path, i);
    }
  }

  /** A walk that gets stuck, the end of which is moved to lost+found. */
  lemma WalkMoves(p: Parents, tops: set<nat>, marked: set<nat>, path: seq<nat>, dir: nat, lf: nat)
    requires Climbed(p, tops, marked, path, dir) && Sticks(p, marked, path) && tops <= marked
    requires lf != 0 && Rooted(p, tops, lf)
    ensures Rooted(p[path[|path| - 1] := lf], tops, lf)
    ensures AllRooted(p, tops, marked) ==> AllRooted(p[path[|path| - 1] := lf], tops, marked + Elements(path))
  {
    var p' := p[path[|path| - 1] := lf];
    StuckAdrift(p, tops, marked, path, dir);
    MovedRooted(p, tops, path[|path| - 1], lf);
    assert Path(p', tops, path) by {
      forall i | 0 <= i < |path| - 1
        ensures Below(p', tops, path[i], path[i + 1])
      {
        assert Below(p, tops, path[i], path[i + 1]);
      }
    }
    forall d | d in Elements(path)
      ensures Rooted(p', tops, d)
    {
      var i :| 0 <= i < |path| && path[i] == d;
      PathRooted(p', tops, path, i);
    }
  }

  // ---------------------------------------------------------------------
  // The whole pass

  /** Above every marked directory, up to `tops`, all is marked and known. */
  ghost predicate Upward(p: Parents, tops: set<nat>, marked: set<nat>) {
    forall d :: d in marked && d !in tops ==> d in p && (p[d] == 0 || (p[d] in p && p[d] in marked))
  }

  lemma {:induction false} LedMarked(p: Parents, tops: set<nat>, marked: set<nat>, path: seq<nat>, i: nat)
    requires Upward(p, tops, marked) && Path(p, tops, path) && path[0] in marked && i < |path|
    ensures path[i] in marked
  {
    if i > 0 {
      LedMarked(p, tops, marked, path, i - 1);
      assert Below(p, tops, path[i - 1], path[i]);
    }
  }

  /** Every marked directory is one of `tops`, or one of `order` leads there. */
  ghost predicate LedFrom(p: Parents, tops: set<nat>, marked: set<nat>, order: seq<nat>) {
    forall d :: d in marked ==> d in tops || exists j :: 0 <= j < |order| && Leads(p, tops, order[j], d)
  }

  /** A walk over a circle goes along it. */
  lemma {:induction false} RoundAbout(p: Parents, tops: set<nat>, c: seq<nat>, path: seq<nat>)
    requires Circle(p, tops, c) && Path(p, tops, path) && Distinct(path) && path[0] == c[0]
    ensures |path| <= |c| && path == c[..|path|]
    decreases |path|
  {
    if |path| > 1 {
      var n := |path| - 1;
      assert Below(p, tops, path[n - 1], path[n]);
      RoundAbout(p, tops, c, path[..n]);
      assert path[n - 1] == path[..n][n - 1] == c[n - 1];
      if n < |c| {
        assert Below(p, tops, c[n - 1], c[n]);
        assert path == path[..n] + [path[n]];
      }
    }
  }

  /** A walk that starts on a circle does not get stuck on it. */
  lemma NotStuckOn(p: Parents, tops: set<nat>, c: seq<nat>, path: seq<nat>)
    requires Circle(p, tops, c) && Path(p, tops, path) && Distinct(path) && path[0] == c[0]
    ensures p[path[|path| - 1]] != 0 && p[path[|path| - 1]] !in path[1..]
  {
    RoundAbout(p, tops, c, path);
    var n := |path|;
    assert path[n - 1] == c[n - 1];
    assert Below(p, tops, c[n - 1], if n < |c| then c[n] else c[0]);
    forall m | 1 <= m < n
      ensures path[m] != p[path[n - 1]]
    {
      assert path[m] == c[m];
    }
  }

  lemma JoinPaths(p: Parents, tops: set<nat>, a: seq<nat>, b: seq<nat>)
    requires Path(p, tops, a) && Path(p, tops, b) && a[|a| - 1] == b[0]
    ensures Leads(p, tops, a[0], b[|b| - 1])
  {
    var joined := a[..|a| - 1] + b;
    forall i | 0 <= i < |joined| - 1
      ensures Below(p, tops, joined[i], joined[i + 1])
    {
      if i < |a| - 1 {
        assert Below(p, tops, a[i], a[i + 1]);
      } else {
        assert Below(p, tops, b[i - (|a| - 1)], b[i - (|a| - 1) + 1]);
      }
    }
    assert Path(p, tops, joined);
  }

  /** From any place on a circle one comes to its start. */
  lemma RestOfCircle(p: Parents, tops: set<nat>, c: seq<nat>, m: nat)
    requires Circle(p, tops, c) && m < |c|
    ensures Path(p, tops, c[m..] + [c[0]])
  {
    var rest := c[m..] + [c[0]];
    forall i | 0 <= i < |rest| - 1
      ensures Below(p, tops, rest[i], rest[i + 1])
    {
      assert rest[i] == c[m + i];
      if m + i < |c| - 1 {
        assert Below(p, tops, c[m + i], c[m + i + 1]);
      }
    }
  }

  /** Nothing on a circle that is left alone is marked before its turn. */
  lemma CircleUnmarked(p: Parents, tops: set<nat>, marked: set<nat>, order: seq<nat>, i: nat, c: seq<nat>, m: nat)
    requires LeftAlone(p, tops, order, i) && LedFrom(p, tops, marked, order[..i])
    requires Circle(p, tops, c) && c[0] == order[i] && m < |c|
    ensures c[m] !in marked
  {
    if c[m] in marked {
      RestOfCircle(p, tops, c, m);
      var rest := c[m..] + [c[0]];
      assert Below(p, tops, rest[0], rest[1]);
      var j :| 0 <= j < |order[..i]| && Leads(p, tops, order[..i][j], c[m]);
      var path: seq<nat> :| Path(p, tops, path) && path[0] == order[j] && path[|path| - 1] == c[m];
      JoinPaths(p, tops, path, rest);
      assert false;
    }
  }

  /** One walk from `dir`, which moves its end to `lf` if it is stuck and that is wanted. */
  ghost predicate Walked(p: Parents, p': Parents, tops: set<nat>, marked: set<nat>, path: seq<nat>, dir: nat, lf: nat,
      move: bool)
  {
    && Climbed(p, tops, marked, path, dir)
    && if Sticks(p, marked, path) then p' == (if move then p[path[|path| - 1] := lf] else p)
       else p' == p && Meets(marked, path)
  }

  /** A circle with `d` on it is all marked. */
  ghost predicate Standing(p: Parents, tops: set<nat>, marked: set<nat>, d: nat) {
    exists c: seq<nat> :: Circle(p, tops, c) && c[0] == d && Elements(c) <= marked
  }

  /** After walks from the first `n` of `order`: what is not marked is as in `p0`, and so
      are the circles left alone. */
  ghost predicate Progress(p0: Parents, p: Parents, tops: set<nat>, marked: set<nat>, order: seq<nat>, n: nat) {
    && n <= |order| && p.Keys == p0.Keys && marked <= p.Keys && tops <= marked
    && (forall d :: d in p && d !in marked ==> p[d] == p0[d])
    && (forall j :: 0 <= j < n ==> order[j] in marked)
    && Upward(p0, tops, marked) && LedFrom(p0, tops, marked, order[..n])
    && (forall j :: 0 <= j < n && LeftAlone(p0, tops, order, j) ==> Standing(p, tops, marked, order[j]))
  }

  lemma ProgressStart(p: Parents, tops: set<nat>, order: seq<nat>)
    requires tops <= p.Keys
    ensures Progress(p, p, tops, tops, order, 0)
    ensures AllRooted(p, tops, tops)
  {
    assert forall d :: d in tops ==> Reaches(p, tops, d, 0);
  }

  /** The parent of `d` is unknown. */
  predicate LostParent(p: Parents, d: nat) {
    d in p && p[d] != 0 && p[d] !in p
  }

  /** Every parent is known, except perhaps those of `tops`. */
  ghost predicate Complete(p: Parents, tops: set<nat>) {
    forall d :: d in p && d !in tops ==> !LostParent(p, d)
  }

  lemma ProgressEnd(p0: Parents, p: Parents, tops: set<nat>, marked: set<nat>, order: seq<nat>)
    requires Progress(p0, p, tops, marked, order, |order|) && forall d :: d in p <==> d in order
    ensures marked == p.Keys && Complete(p0, tops)
  {
    assert forall d :: d in order ==> d in marked;
  }

  /** What a walk passes is a path of `p0` too. */
  lemma PathBefore(p0: Parents, p: Parents, tops: set<nat>, marked: set<nat>, order: seq<nat>, n: nat, path: seq<nat>,
      dir: nat, i: nat)
    requires Progress(p0, p, tops, marked, order, n) && Climbed(p, tops, marked, path, dir) && i < |path|
    ensures Path(p0, tops, path[..i + 1])
  {
    var q := path[..i + 1];
    forall k | 0 <= k < |q| - 1
      ensures Below(p0, tops, q[k], q[k + 1])
    {
      assert Below(p, tops, path[k], path[k + 1]);
    }
    if i < |path| - 1 {
      assert Below(p, tops, path[i], path[i + 1]);
    }
  }

  lemma StepUpward(p0: Parents, p: Parents, p': Parents, tops: set<nat>, marked: set<nat>, order: seq<nat>, n: nat,
      path: seq<nat>, dir: nat, lf: nat, move: bool)
    requires Progress(p0, p, tops, marked, order, n) && Walked(p, p', tops, marked, path, dir, lf, move)
    ensures Upward(p0, tops, marked + Elements(path))
  {
    forall d | d in Elements(path) && d !in marked
      ensures d in p0 && (p0[d] == 0 || (p0[d] in p0 && p0[d] in marked + Elements(path)))
    {
      var i :| 0 <= i < |path| && path[i] == d;
      if i < |path| - 1 {
        assert Below(p, tops, path[i], path[i + 1]);
        assert path[i + 1] in Elements(path);
      } else if Sticks(p, marked, path) {
        if p[d] != 0 {
          var m :| 1 <= m < |path| && path[m] == p[d];
          assert m < |path| - 1 ==> Below(p, tops, path[m], path[m + 1]);
        }
      } else {
        assert Below(p, tops, path[0], path[1]);
        assert path[1] in Elements(path);
      }
    }
  }

  lemma StepLed(p0: Parents, p: Parents, tops: set<nat>, marked: set<nat>, order: seq<nat>, n: nat, path: seq<nat>,
      dir: nat)
    requires Progress(p0, p, tops, marked, order, n) && Climbed(p, tops, marked, path, dir)
    requires n < |order| && dir == order[n]
    ensures LedFrom(p0, tops, marked + Elements(path), order[..n + 1])
  {
    var later := order[..n + 1];
    forall d | d in marked + Elements(path) && d !in tops
      ensures exists j :: 0 <= j < |later| && Leads(p0, tops, later[j], d)
    {
      if d in marked {
        var j :| 0 <= j < |order[..n]| && Leads(p0, tops, order[..n][j], d);
        assert later[j] == order[..n][j];
      } else {
        var i :| 0 <= i < |path| && path[i] == d;
        PathBefore(p0, p, tops, marked, order, n, path, dir, i);
        assert path[..i + 1][0] == later[n];
        assert Leads(p0, tops, later[n], d);
      }
    }
  }

  /** Circles outlast what happens elsewhere. */
  lemma CircleStays(p: Parents, p': Parents, tops: set<nat>, c: seq<nat>)
    requires Circle(p, tops, c) && p'.Keys == p.Keys
    requires forall m :: 0 <= m < |c| ==> c[m] in p && p'[c[m]] == p[c[m]]
    ensures Circle(p', tops, c)
  {
    forall i | 0 <= i < |c| - 1
      ensures Below(p', tops, c[i], c[i + 1])
    {
      assert Below(p, tops, c[i], c[i + 1]);
    }
  }

  lemma StandingStays(p: Parents, p': Parents, tops: set<nat>, marked: set<nat>, path: seq<nat>, dir: nat, lf: nat,
      move: bool, d: nat)
    requires Walked(p, p', tops, marked, path, dir, lf, move) && marked <= p.Keys && Standing(p, tops, marked, d)
    ensures Standing(p', tops, marked + Elements(path), d)
  {
    var c: seq<nat> :| Circle(p, tops, c) && c[0] == d && Elements(c) <= marked;
    assert forall m :: 0 <= m < |c| ==> c[m] in Elements(c);
    CircleStays(p, p', tops, c);
  }

  /** A circle that is to be left alone is left alone. */
  lemma StepAlone(p0: Parents, p: Parents, p': Parents, tops: set<nat>, marked: set<nat>, order: seq<nat>, n: nat,
      path: seq<nat>, dir: nat, lf: nat, move: bool)
    requires Progress(p0, p, tops, marked, order, n) && Walked(p, p', tops, marked, path, dir, lf, move)
    requires LeftAlone(p0, tops, order, n) && dir == order[n]
    ensures Standing(p', tops, marked + Elements(path), dir)
  {
    var c: seq<nat> :| Circle(p0, tops, c) && c[0] == dir;
    forall m | 0 <= m < |c|
      ensures c[m] in p0 && p[c[m]] == p0[c[m]]
    {
      assert m < |c| - 1 ==> Below(p0, tops, c[m], c[m + 1]);
      CircleUnmarked(p0, tops, marked, order, n, c, m);
    }
    CircleStays(p0, p, tops, c);
    if Sticks(p, marked, path) {
      NotStuckOn(p, tops, c, path);
      assert false;
    }
    StepUpward(p0, p, p', tops, marked, order, n, path, dir, lf, move);
    assert path[0] in Elements(path);
    forall x | x in Elements(c)
      ensures x in marked + Elements(path)
    {
      var m :| 0 <= m < |c| && c[m] == x;
      LedMarked(p0, tops, marked + Elements(path), c, m);
    }
  }

  lemma StepProgress(p0: Parents, p: Parents, p': Parents, tops: set<nat>, marked: set<nat>, order: seq<nat>, n: nat,
      path: seq<nat>, dir: nat, lf: nat, move: bool)
    requires Progress(p0, p, tops, marked, order, n) && Walked(p, p', tops, marked, path, dir, lf, move)
    requires n < |order| && dir == order[n] && Elements(path) <= p.Keys
    ensures Progress(p0, p', tops, marked + Elements(path), order, n + 1)
  {
    StepUpward(p0, p, p', tops, marked, order, n, path, dir, lf, move);
    StepLed(p0, p, tops, marked, order, n, path, dir);
    assert path[0] in Elements(path) && path[|path| - 1] in Elements(path);
    forall j | 0 <= j < n + 1 && LeftAlone(p0, tops, order, j)
      ensures Standing(p', tops, marked + Elements(path), order[j])
    {
      if j == n {
        StepAlone(p0, p, p', tops, marked, order, n, path, dir, lf, move);
      } else {
        StandingStays(p, p', tops, marked, path, dir, lf, move, order[j]);
      }
    }
  }

  /** A walk that comes round to its start has found a circle that is left alone. */
  lemma RoundAlone(p0: Parents, p: Parents, tops: set<nat>, marked: set<nat>, order: seq<nat>, n: nat, path: seq<nat>,
      dir: nat)
    requires Progress(p0, p, tops, marked, order, n) && Climbed(p, tops, marked, path, dir)
    requires n < |order| && dir == order[n] && |path| > 1 && path[|path| - 1] == dir
    ensures LeftAlone(p0, tops, order, n)
  {
    var c := path[..|path| - 1];
    PathBefore(p0, p, tops, marked, order, n, path, dir, |path| - 2);
    assert path[..|path| - 2 + 1] == c;
    assert Below(p, tops, path[|path| - 2], path[|path| - 1]);
    assert Circle(p0, tops, c);
    forall j | 0 <= j < n
      ensures !Leads(p0, tops, order[j], dir)
    {
      if Leads(p0, tops, order[j], dir) {
        var q: seq<nat> :| Path(p0, tops, q) && q[0] == order[j] && q[|q| - 1] == dir;
        LedMarked(p0, tops, marked, q, |q| - 1);
        assert false;
      }
    }
  }

  /** The '..' of each of `done` is right. */
  ghost predicate Settled(p: Parents, dotDot: map<nat, nat>, done: seq<nat>) {
    forall j :: 0 <= j < |done| ==> done[j] in p && done[j] in dotDot && dotDot[done[j]] == p[done[j]]
  }

  lemma StepSettled(p0: Parents, p: Parents, p': Parents, tops: set<nat>, marked: set<nat>, order: seq<nat>, n: nat,
      path: seq<nat>, lf: nat, before: map<nat, nat>, after: map<nat, nat>)
    requires Progress(p0, p, tops, marked, order, n)
    requires n < |order| && order[n] in p && before.Keys == after.Keys == p.Keys
    requires Walked(p, p', tops, marked, path, order[n], lf, true) && Settled(p, before, order[..n])
    requires after[order[n]] == p'[order[n]] && forall d :: d in p && d != order[n] ==> after[d] == before[d]
    ensures Settled(p', after, order[..n + 1])
  {
    forall j | 0 <= j < n && order[j] != order[n]
      ensures order[j] in p' && order[j] in after && after[order[j]] == p'[order[j]]
    {
      assert order[..n][j] == order[j];
    }
  }

  lemma SettledEnd(p: Parents, dotDot: map<nat, nat>, order: seq<nat>)
    requires Settled(p, dotDot, order[..|order|]) && dotDot.Keys == p.Keys && forall d :: d in p <==> d in order
    ensures dotDot == p
  {
    assert order[..|order|] == order;
  }

  /** Rooted so far, unless a circle was left alone. */
  ghost predicate RootedSoFar(p0: Parents, p: Parents, tops: set<nat>, marked: set<nat>, order: seq<nat>, n: nat,
      lf: nat)
  {
    && lf != 0 && Rooted(p, tops, lf)
    && (AllRooted(p, tops, marked) || exists j :: 0 <= j < n && LeftAlone(p0, tops, order, j))
  }

  lemma StepRooted(p0: Parents, p: Parents, p': Parents, tops: set<nat>, marked: set<nat>, order: seq<nat>, n: nat,
      path: seq<nat>, dir: nat, lf: nat)
    requires Progress(p0, p, tops, marked, order, n) && RootedSoFar(p0, p, tops, marked, order, n, lf)
    requires Walked(p, p', tops, marked, path, dir, lf, true) && n < |order| && dir == order[n]
    ensures RootedSoFar(p0, p', tops, marked + Elements(path), order, n + 1, lf)
  {
    if Sticks(p, marked, path) {
      WalkMoves(p, tops, marked, path, dir, lf);
    } else if path[|path| - 1] in marked {
      if AllRooted(p, tops, marked) {
        WalkMeets(p, tops, marked, path, dir);
      }
    } else {
      RoundAlone(p0, p, tops, marked, order, n, path, dir);
    }
  }

  /** At the end of the pass all is rooted if and only if no circle was left alone. */
  lemma RootedIff(p0: Parents, p: Parents, tops: set<nat>, order: seq<nat>, lf: nat)
    requires Progress(p0, p, tops, p.Keys, order, |order|) && RootedSoFar(p0, p, tops, p.Keys, order, |order|, lf)
    ensures AllRooted(p, tops, p.Keys) <==> forall i :: 0 <= i < |order| ==> !LeftAlone(p0, tops, order, i)
  {
    forall i | 0 <= i < |order| && LeftAlone(p0, tops, order, i)
      ensures !AllRooted(p, tops, p.Keys)
    {
      var c: seq<nat> :| Circle(p, tops, c) && c[0] == order[i] && Elements(c) <= p.Keys;
      forall k: nat
        ensures !Reaches(p, tops, c[0], k)
      {
        CircleAdrift(p, tops, c, 0, k);
      }
      assert c[0] in Elements(c);
      assert !Rooted(p, tops, c[0]);
    }
  }

  /** Two directories that are each other's parents, with nothing below them: the walk from
      the first comes round to its start, which counts as connected by then. */
  lemma TwoLeftAlone(p: Parents, order: seq<nat>)
    requires p == map[1 := 1, 2 := 2, 3 := 1, 4 := 5, 5 := 4] && order == [1, 2, 3, 4, 5]
    ensures LeftAlone(p, {1, 2}, order, 3)
  {
    var tops, c := {1, 2}, [4, 5];
    assert Below(p, tops, 4, 5) && Below(p, tops, 5, 4);
    assert Circle(p, tops, c);
    forall j | 0 <= j < 3
      ensures !Leads(p, tops, order[j], 4)
    {
      if Leads(p, tops, order[j], 4) {
        var path: seq<nat> :| Path(p, tops, path) && path[0] == order[j] && path[|path| - 1] == 4;
        LedMarked(p, tops, {1, 2, 3}, path, |path| - 1);
        assert false;
      }
    }
  }

  class Walker {
    const root: nat
    const sysdir: nat
    const lostFound: nat
    /** Every question is answered with yes, and every repair succeeds. */
    const smooth: bool
    /** The directories found in an orphan directory. */
    const inOrphan: set<nat>
    /** dp_dirent, dp_dot_dot, dp_connected and dp_loop_no of each directory. */
    var dirent: Parents
    var dotDot: map<nat, nat>
    var connected: set<nat>
    var loopOf: map<nat, nat>
    var loopNo: nat

    ghost function Tops(): set<nat> {
      {root, sysdir}
    }

    ghost predicate Valid()
      reads this
    {
      && dotDot.Keys == dirent.Keys && loopOf.Keys == dirent.Keys && connected <= dirent.Keys
      && forall d :: d in loopOf ==> loopOf[d] <= loopNo
    }

    constructor (root: nat, sysdir: nat, lostFound: nat, smooth: bool, inOrphan: set<nat>,
        dirent: Parents, dotDot: map<nat, nat>)
      requires dotDot.Keys == dirent.Keys
      ensures Valid() && this.root == root && this.sysdir == sysdir && this.lostFound == lostFound
      ensures this.smooth == smooth
      ensures this.inOrphan == inOrphan && this.dirent == dirent && this.dotDot == dotDot && connected == {}
    {
      this.root, this.sysdir, this.lostFound := root, sysdir, lostFound;
      this.smooth, this.inOrphan := smooth, inOrphan;
      this.dirent, this.dotDot, this.connected := dirent, dotDot, {};
      this.loopOf, this.loopNo := map d | d in dirent :: 0, 0;
    }

    /** What o2fsck_reconnect_file() keeps of the new entry for a directory.  Finding
        lost+found, the type of the inode, or adding the entry may fail. */
    method Reconnect(ino: nat) returns (done: bool)
      requires ino in dirent
      modifies this`dirent
      ensures dirent == if done then old(dirent)[ino := lostFound] else old(dirent)
      ensures smooth ==> done
    {
      done := Chance(smooth);
      if done {
        dirent := dirent[ino := lostFound];
      }
    }

    /** fix_dot_dot(), which may fail to read the directory or to find the entry. */
    method FixDotDot(dir: nat) returns (done: bool)
      requires dir in dirent
      modifies this`dotDot
      ensures dotDot == if done then old(dotDot)[dir := dirent[dir]] else old(dotDot)
      ensures smooth ==> done
    {
      done := Chance(smooth);
      if done {
        dotDot := dotDot[dir := dirent[dir]];
      }
    }

    /** The loop of connect_directory(), up to a directory marked before, or one whose parent
        is unknown, missing or on the walk already. */
    method Climb(dir: nat) returns (ok: bool, stuck: bool, dp: nat, ghost path: seq<nat>)
      requires Valid() && dir in dirent && Tops() <= connected
      modifies this`connected, this`loopOf, this`loopNo
      ensures Valid() && Climbed(dirent, Tops(), old(connected), path, dir) && dp == path[|path| - 1]
      ensures connected == old(connected) + Elements(path)
      ensures !ok ==> dp !in old(connected) && dirent[dp] != 0 && dirent[dp] !in dirent
      ensures ok && stuck ==> Sticks(dirent, old(connected), path)
      ensures ok && !stuck ==> Meets(old(connected), path)
    {
      loopNo := loopNo + 1;
      ghost var marked := connected;
      dp, path := dir, [dir];
      while dp !in connected
        invariant Walking(dirent, Tops(), marked, connected, loopOf, loopNo, path, dir) && dp == path[|path| - 1]
        decreases dirent.Keys - connected
      {
        ghost var before := connected;
        WalkFresh(dirent, Tops(), marked, connected, loopOf, loopNo, path, dir);
        PathKnown(dirent, Tops(), path);
        connected := connected + {dp};
        if dirent[dp] != 0 {
          var par := dirent[dp];
          if par !in dirent {
            return false, true, dp, path;
          }
          if loopOf[par] != loopNo {
            WalkOn(dirent, Tops(), marked, before, loopOf, loopNo, path, dir, par);
            loopOf := loopOf[par := loopNo];
            path := path + [par];
            dp := par;
            continue;
          }
        }
        return true, true, dp, path;
      }
      WalkEnds(dirent, Tops(), marked, connected, loopOf, loopNo, path, dir);
      PathKnown(dirent, Tops(), path);
      return true, false, dp, path;
    }

    /** The first half of connect_directory(). */
    method Walk(dir: nat) returns (ok: bool, ghost path: seq<nat>, ghost move: bool)
      requires Valid() && dir in dirent && Tops() <= connected
      modifies this`dirent, this`connected, this`loopOf, this`loopNo
      ensures Valid() && dirent.Keys == old(dirent.Keys)
      ensures !ok ==> exists d :: d in dirent && d !in old(connected) && LostParent(old(dirent), d)
      ensures ok ==> Walked(old(dirent), dirent, Tops(), old(connected), path, dir, lostFound, move)
      ensures ok ==> connected == old(connected) + Elements(path)
      ensures smooth ==> move
    {
      var stuck, dp;
      ok, stuck, dp, path := Climb(dir);
      move := smooth;
      if ok && stuck {
        var fix := Chance(smooth);
        if fix {
          var done := Reconnect(dp);
          move := done;
        }
      }
    }

    /** connect_directory().  A directory in an orphan directory is taken to have the '..'
        that it should have. */
    method ConnectDirectory(dir: nat) returns (ok: bool, ghost path: seq<nat>, ghost move: bool)
      requires Valid() && dir in dirent && Tops() <= connected
      modifies this
      ensures Valid() && dirent.Keys == old(dirent.Keys)
      ensures !ok ==> exists d :: d in dirent && d !in old(connected) && LostParent(old(dirent), d)
      ensures ok ==> Walked(old(dirent), dirent, Tops(), old(connected), path, dir, lostFound, move)
      ensures ok ==> connected == old(connected) + Elements(path)
      ensures smooth ==> move
      ensures ok ==> forall d :: d in dirent && d != dir ==> dotDot[d] == old(dotDot)[d]
      ensures ok && smooth ==> dotDot[dir] == dirent[dir]
    {
      ok, path, move := Walk(dir);
      if !ok {
        return;
      }
      if dir in inOrphan {
        dotDot := dotDot[dir := dirent[dir]];
      }
      if dirent[dir] != dotDot[dir] {
        var fix := Chance(smooth);
        if fix {
          var done := FixDotDot(dir);
        }
      }
    }

    /** The pass has dealt with `n` directories of `order`. */
    ghost predicate Going(p0: Parents, order: seq<nat>, n: nat)
      reads this
    {
      && Valid() && Progress(p0, dirent, Tops(), connected, order, n) && (forall d :: d in dirent <==> d in order)
      && (smooth ==> Settled(dirent, dotDot, order[..n]))
      && (smooth && lostFound != 0 && Rooted(p0, Tops(), lostFound) ==>
          RootedSoFar(p0, dirent, Tops(), connected, order, n, lostFound))
    }

    /** One turn of the loop in o2fsck_pass3(). */
    method Visit(order: seq<nat>, i: nat, ghost p0: Parents) returns (ok: bool)
      requires Going(p0, order, i) && i < |order|
      modifies this
      ensures Valid() && dirent.Keys == old(dirent.Keys)
      ensures if ok then Going(p0, order, i + 1) else !Complete(p0, Tops())
    {
      ghost var p, marked, before := dirent, connected, dotDot;
      ghost var path, move;
      ok, path, move := ConnectDirectory(order[i]);
      if !ok {
        return;
      }
      StepProgress(p0, p, dirent, Tops(), marked, order, i, path, order[i], lostFound, move);
      if smooth {
        StepSettled(p0, p, dirent, Tops(), marked, order, i, path, lostFound, before, dotDot);
        if lostFound != 0 && Rooted(p0, Tops(), lostFound) {
          StepRooted(p0, p, dirent, Tops(), marked, order, i, path, order[i], lostFound);
        }
      }
    }

    /** o2fsck_pass3() from where root and system directory are marked.  `order` lists the
        directories as the tree of them does. */
    method Run(order: seq<nat>) returns (ok: bool)
      requires Valid() && connected == {} && (forall d :: d in dirent <==> d in order)
      modifies this
      ensures Valid() && dirent.Keys == old(dirent.Keys)
      ensures ok <==> Tops() <= dirent.Keys && Complete(old(dirent), Tops())
      ensures ok && smooth ==> dotDot == dirent
      ensures ok && smooth && lostFound != 0 && Rooted(old(dirent), Tops(), lostFound) ==>
        (AllRooted(dirent, Tops(), dirent.Keys) <==>
          forall i :: 0 <= i < |order| ==> !LeftAlone(old(dirent), Tops(), order, i))
    {
      ok := true;
      if root !in dirent || sysdir !in dirent {
        return false;
      }
      connected := connected + {root};
      connected := connected + {sysdir};
      ghost var p0 := dirent;
      ProgressStart(p0, Tops(), order);
      assert connected == Tops();
      for i := 0 to |order|
        invariant ok && Going(p0, order, i)
      {
        ok := Visit(order, i, p0);
        if !ok {
          return;
        }
      }
      ProgressEnd(p0, dirent, Tops(), connected, order);
      if smooth {
        SettledEnd(dirent, dotDot, order);
        if lostFound != 0 && Rooted(p0, Tops(), lostFound) {
          RootedIff(p0, dirent, Tops(), order, lostFound);
        }
      }
    }
  }
}
