/**
 * A lookup needs no lock and no luck: the number of links in front of a reader
 * never grows, whatever writers do, and falls with each of its loads.
 */
module RcuWaitFree {
  import opened PeMapSpec
  import opened RcuBucket
  import opened RcuInvariant
  import opened RcuPreservation

  /** Following links from `c` passes through exactly the entries p. */
  predicate IsPath(next: Links, c: Option<nat>, p: seq<nat>)
    decreases |p|
  {
    if p == [] then c == None
    else c == Some(p[0]) && p[0] in next && IsPath(next, next[p[0]], p[1..])
  }

  lemma {:induction false} ChainIsPath(next: Links, c: Chain, j: nat)
    requires LinkedAs(next, c) && j <= |c|
    ensures IsPath(next, At(c, j), c[j..])
    decreases |c| - j
  {
    if j < |c| {
      ChainIsPath(next, c, j + 1);
      assert c[j..][1..] == c[j + 1..];
    }
  }

  /** A new entry is on nobody's path. */
  lemma {:induction false} PathIgnores(next: Links, next': Links, n: nat, c: Option<nat>, p: seq<nat>)
    requires IsPath(next, c, p) && n !in next
    requires next.Keys <= next'.Keys && forall x | x in next && x != n :: next'[x] == next[x]
    ensures IsPath(next', c, p)
    decreases |p|
  {
    if p != [] {
      PathIgnores(next, next', n, next[p[0]], p[1..]);
    }
  }

  /** Bypassing e behind `pred` can only shorten a path. */
  lemma {:induction false} PathBypasses(next: Links, next': Links, pred: nat, e: nat, c: Option<nat>, p: seq<nat>)
    returns (p': seq<nat>)
    requires IsPath(next, c, p)
    requires pred in next && e in next && next[pred] == Some(e)
    requires next' == next[pred := next[e]]
    ensures IsPath(next', c, p') && |p'| <= |p|
    decreases |p|
  {
    if p == [] {
      p' := [];
    } else if p[0] == pred {
      var q := PathBypasses(next, next', pred, e, next[e], p[1..][1..]);
      p' := [pred] + q;
    } else {
      var q := PathBypasses(next, next', pred, e, next[p[0]], p[1..]);
      p' := [p[0]] + q;
    }
  }

  /** Putting n in the place of e keeps the length of every path. */
  lemma {:induction false} PathReplaces(
      next: Links, next': Links, pred: nat, e: nat, n: nat, c: Option<nat>, p: seq<nat>)
    returns (p': seq<nat>)
    requires IsPath(next, c, p) && n !in next
    requires pred in next && e in next && next[pred] == Some(e)
    requires next' == next[n := next[e]][pred := Some(n)]
    ensures IsPath(next', c, p') && |p'| == |p|
    decreases |p|
  {
    if p == [] {
      p' := [];
    } else if p[0] == pred {
      var q := PathReplaces(next, next', pred, e, n, next[e], p[1..][1..]);
      assert IsPath(next', Some(n), [n] + q);
      p' := [pred, n] + q;
      assert p'[1..] == [n] + q;
    } else {
      var q := PathReplaces(next, next', pred, e, n, next[p[0]], p[1..]);
      p' := [p[0]] + q;
    }
  }

  lemma LinkPath(s: State, a: Action, c: Option<nat>, p: seq<nat>) returns (p': seq<nat>)
    requires Inv(s) && Enabled(s, a) && (a.AddHead? || a.Replace? || a.Delete?)
    requires IsPath(s.next, c, p)
    ensures IsPath(Next(s, a).next, c, p') && |p'| <= |p|
  {
    var w, next' := a.w, Next(s, a).next;
    var j := WalkPosition(s, w);
    var wr := s.writers[w];
    if wr.prev.Some? {
      assert wr.prev.value == Last(s.log)[j - 1];
    }
    if a.AddHead? {
      PathIgnores(s.next, next', wr.op.node, c, p);
      p' := p;
    } else if a.Replace? && wr.prev == None {
      PathIgnores(s.next, next', wr.op.node, c, p);
      p' := p;
    } else if a.Replace? {
      p' := PathReplaces(s.next, next', wr.prev.value, wr.cur.value, wr.op.node, c, p);
    } else if wr.prev == None {
      p' := p;
    } else {
      p' := PathBypasses(s.next, next', wr.prev.value, wr.cur.value, c, p);
    }
  }

  ghost predicate LinksAhead(s: State, r: nat, n: int) {
    && r in s.readers
    && (s.readers[r].Scanning? ==> exists p :: IsPath(s.next, s.readers[r].cursor, p) && |p| <= n)
    && (s.readers[r].Finished? ==> 0 <= n)
  }

  lemma AheadAtLink(s: State, a: Action, r: nat, n: int)
    requires Inv(s) && Enabled(s, a) && (a.AddHead? || a.Replace? || a.Delete?)
    requires LinksAhead(s, r, n) && s.readers[r].Scanning?
    ensures LinksAhead(Next(s, a), r, n)
  {
    var p :| IsPath(s.next, s.readers[r].cursor, p) && |p| <= n;
    var p' := LinkPath(s, a, s.readers[r].cursor, p);
  }

  lemma AheadAtOwnStep(s: State, a: Action, r: nat, n: int)
    requires Enabled(s, a) && (a == ReadNext(r) || a == ReadHit(r) || a == ReadEnd(r))
    requires LinksAhead(s, r, n)
    ensures LinksAhead(Next(s, a), r, if a == ReadNext(r) then n - 1 else n)
  {
    var c := s.readers[r].cursor;
    var p :| IsPath(s.next, c, p) && |p| <= n;
    if a == ReadNext(r) {
      assert IsPath(s.next, s.next[c.value], p[1..]);
    }
  }

  /** No action lengthens the way of a scanning reader, and its own load shortens it. */
  lemma AheadFalls(s: State, a: Action, r: nat, n: int)
    requires Inv(s) && Enabled(s, a) && LinksAhead(s, r, n) && !s.readers[r].Entered?
    ensures LinksAhead(Next(s, a), r, if a == ReadNext(r) then n - 1 else n)
  {
    if a == ReadNext(r) || a == ReadHit(r) || a == ReadEnd(r) {
      AheadAtOwnStep(s, a, r, n);
    } else if (a.AddHead? || a.Replace? || a.Delete?) && s.readers[r].Scanning? {
      AheadAtLink(s, a, r, n);
    }
  }

  /** When a lookup loads the list head, at most as many links lie ahead as the bucket has entries. */
  lemma AheadBegins(s: State, r: nat)
    requires Inv(s) && Enabled(s, ReadHead(r))
    ensures LinksAhead(Next(s, ReadHead(r)), r, s.num)
  {
    ChainIsPath(s.next, Last(s.log), 0);
    assert Last(s.log)[0..] == Last(s.log);
  }
}
