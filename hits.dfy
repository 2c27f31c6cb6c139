/** Bullet-enemy resolution: every bullet, from the last to the first,
    destroys the last enemy it touches, and both leave their collections. */
module Hits {
  import opened Arena

  /** The index of the last enemy bullet b touches, or -1 when it touches
      none: the enemy the inner loop, scanning from the last index down,
      stops at. */
  function LastHit(b: Pos, es: seq<Pos>): (j: int)
    ensures -1 <= j < |es|
    ensures j >= 0 ==> IsColliding(b, es[j])
    ensures forall k {:trigger IsColliding(b, es[k])} :: j < k < |es| ==> !IsColliding(b, es[k])
    decreases |es|
  {
    if es == [] then -1
    else if IsColliding(b, es[|es| - 1]) then |es| - 1
    else LastHit(b, es[..|es| - 1])
  }

  /** The bullets and enemies left after resolution, and how many hits it
      counted. */
  datatype Outcome = Outcome(bullets: seq<Pos>, enemies: seq<Pos>, hits: nat)

  /** The bullet loop of resolution from cursor i down to the first
      bullet, with `hits` hits counted so far: a bullet that touches no
      enemy stays; otherwise it and the last enemy it touches are spliced
      out and one more hit is counted. */
  function ResolveFrom(bs: seq<Pos>, es: seq<Pos>, i: int, hits: nat): Outcome
    requires -1 <= i < |bs|
    decreases i + 1
  {
    if i < 0 then Outcome(bs, es, hits)
    else
      var j := LastHit(bs[i], es);
      if j < 0 then ResolveFrom(bs, es, i - 1, hits)
      else ResolveFrom(bs[..i] + bs[i + 1..], es[..j] + es[j + 1..], i - 1, hits + 1)
  }

  /** Resolution of bullets bs against enemies es, from the last bullet to
      the first. */
  function Resolve(bs: seq<Pos>, es: seq<Pos>): Outcome
  {
    ResolveFrom(bs, es, |bs| - 1, 0)
  }

  lemma {:induction false} ResolveFromCounts(bs: seq<Pos>, es: seq<Pos>, i: int, hits: nat)
    requires -1 <= i < |bs|
    ensures var r := ResolveFrom(bs, es, i, hits);
            |r.bullets| + r.hits == |bs| + hits && |r.enemies| + r.hits == |es| + hits
    decreases i + 1
  {
    if i >= 0 {
      var j := LastHit(bs[i], es);
      if j < 0 {
        ResolveFromCounts(bs, es, i - 1, hits);
      } else {
        ResolveFromCounts(bs[..i] + bs[i + 1..], es[..j] + es[j + 1..], i - 1, hits + 1);
      }
    }
  }

  /** Splicing one element out of a collection leaves a part of it. */
  lemma SpliceDraws(s: seq<Pos>, k: nat)
    requires k < |s|
    ensures multiset(s[..k] + s[k + 1..]) + multiset{s[k]} == multiset(s)
  {
    assert s == s[..k] + [s[k]] + s[k + 1..];
  }

  lemma {:induction false} ResolveFromDraws(bs: seq<Pos>, es: seq<Pos>, i: int, hits: nat)
    requires -1 <= i < |bs|
    ensures var r := ResolveFrom(bs, es, i, hits);
            multiset(r.bullets) <= multiset(bs) && multiset(r.enemies) <= multiset(es)
    decreases i + 1
  {
    if i >= 0 {
      var j := LastHit(bs[i], es);
      if j < 0 {
        ResolveFromDraws(bs, es, i - 1, hits);
      } else {
        SpliceDraws(bs, i);
        SpliceDraws(es, j);
        ResolveFromDraws(bs[..i] + bs[i + 1..], es[..j] + es[j + 1..], i - 1, hits + 1);
      }
    }
  }

  /** Each hit removes one bullet and one enemy and counts once, so both
      collections shrink by the number of hits, and what is left is drawn
      from what there was. */
  lemma ResolveShrinks(bs: seq<Pos>, es: seq<Pos>)
    ensures var r := Resolve(bs, es);
            && |r.bullets| + r.hits == |bs| && |r.enemies| + r.hits == |es|
            && multiset(r.bullets) <= multiset(bs) && multiset(r.enemies) <= multiset(es)
  {
    ResolveFromCounts(bs, es, |bs| - 1, 0);
    ResolveFromDraws(bs, es, |bs| - 1, 0);
  }

  /** No enemy of es touches bullet b. */
  predicate Untouched(b: Pos, es: seq<Pos>)
  {
    forall f :: f in es ==> !IsColliding(b, f)
  }

  /** A bullet with no last touched enemy touches none. */
  lemma MissUntouched(b: Pos, es: seq<Pos>)
    requires LastHit(b, es) < 0
    ensures Untouched(b, es)
  {
    forall f | f in es
      ensures !IsColliding(b, f)
    {
      var k :| 0 <= k < |es| && es[k] == f;
    }
  }

  /** Splicing an enemy out keeps an untouched bullet untouched. */
  lemma UntouchedSplice(b: Pos, es: seq<Pos>, j: nat)
    requires Untouched(b, es) && j < |es|
    ensures Untouched(b, es[..j] + es[j + 1..])
  {
    forall f | f in es[..j] + es[j + 1..]
      ensures !IsColliding(b, f)
    {
      assert f in es;
    }
  }

  lemma {:induction false} ResolveFromLeavesNoContact(bs: seq<Pos>, es: seq<Pos>, i: int, hits: nat, b: Pos, e: Pos)
    requires -1 <= i < |bs|
    requires forall k :: i < k < |bs| ==> Untouched(bs[k], es)
    requires b in ResolveFrom(bs, es, i, hits).bullets && e in ResolveFrom(bs, es, i, hits).enemies
    ensures !IsColliding(b, e)
    decreases i + 1
  {
    if i < 0 {
      var k :| 0 <= k < |bs| && bs[k] == b;
      assert Untouched(bs[k], es);
    } else {
      var j := LastHit(bs[i], es);
      if j < 0 {
        MissUntouched(bs[i], es);
        ResolveFromLeavesNoContact(bs, es, i - 1, hits, b, e);
      } else {
        var bs', es' := bs[..i] + bs[i + 1..], es[..j] + es[j + 1..];
        forall k | i - 1 < k < |bs'|
          ensures Untouched(bs'[k], es')
        {
          assert bs'[k] == bs[k + 1];
          UntouchedSplice(bs[k + 1], es, j);
        }
        ResolveFromLeavesNoContact(bs', es', i - 1, hits + 1, b, e);
      }
    }
  }

  /** After resolution no surviving bullet touches a surviving enemy. */
  lemma ResolveLeavesNoContact(bs: seq<Pos>, es: seq<Pos>, b: Pos, e: Pos)
    requires b in Resolve(bs, es).bullets && e in Resolve(bs, es).enemies
    ensures !IsColliding(b, e)
  {
    ResolveFromLeavesNoContact(bs, es, |bs| - 1, 0, b, e);
  }

  /** No bullet of bs touches enemy e. */
  predicate Missed(e: Pos, bs: seq<Pos>)
  {
    forall c :: c in bs ==> !IsColliding(c, e)
  }

  /** Splicing a bullet out keeps a missed enemy missed. */
  lemma MissedSplice(e: Pos, bs: seq<Pos>, i: nat)
    requires Missed(e, bs) && i < |bs|
    ensures Missed(e, bs[..i] + bs[i + 1..])
  {
    forall c | c in bs[..i] + bs[i + 1..]
      ensures !IsColliding(c, e)
    {
      assert c in bs;
    }
  }

  lemma {:induction false} ResolveFromKeepsUntouched(bs: seq<Pos>, es: seq<Pos>, i: int, hits: nat, b: Pos)
    requires -1 <= i < |bs|
    requires Untouched(b, es)
    ensures multiset(ResolveFrom(bs, es, i, hits).bullets)[b] == multiset(bs)[b]
    decreases i + 1
  {
    if i >= 0 {
      var j := LastHit(bs[i], es);
      if j < 0 {
        ResolveFromKeepsUntouched(bs, es, i - 1, hits, b);
      } else {
        assert es[j] in es;
        SpliceDraws(bs, i);
        UntouchedSplice(b, es, j);
        ResolveFromKeepsUntouched(bs[..i] + bs[i + 1..], es[..j] + es[j + 1..], i - 1, hits + 1, b);
      }
    }
  }

  lemma {:induction false} ResolveFromKeepsMissed(bs: seq<Pos>, es: seq<Pos>, i: int, hits: nat, e: Pos)
    requires -1 <= i < |bs|
    requires Missed(e, bs)
    ensures multiset(ResolveFrom(bs, es, i, hits).enemies)[e] == multiset(es)[e]
    decreases i + 1
  {
    if i >= 0 {
      var j := LastHit(bs[i], es);
      if j < 0 {
        ResolveFromKeepsMissed(bs, es, i - 1, hits, e);
      } else {
        assert bs[i] in bs;
        SpliceDraws(es, j);
        MissedSplice(e, bs, i);
        ResolveFromKeepsMissed(bs[..i] + bs[i + 1..], es[..j] + es[j + 1..], i - 1, hits + 1, e);
      }
    }
  }

  /** Resolution removes only what collides: every copy of a bullet that
      touches no enemy survives it, and so does every copy of an enemy
      that no bullet touches. */
  lemma ResolveRemovesOnlyColliding(bs: seq<Pos>, es: seq<Pos>, b: Pos, e: Pos)
    ensures Untouched(b, es) ==> multiset(Resolve(bs, es).bullets)[b] == multiset(bs)[b]
    ensures Missed(e, bs) ==> multiset(Resolve(bs, es).enemies)[e] == multiset(es)[e]
  {
    if Untouched(b, es) {
      ResolveFromKeepsUntouched(bs, es, |bs| - 1, 0, b);
    }
    if Missed(e, bs) {
      ResolveFromKeepsMissed(bs, es, |bs| - 1, 0, e);
    }
  }
}
