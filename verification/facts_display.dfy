/**
 * The rotating "Did you know?" panel. The index of the fact on show advances
 * on a timer (every 10 s here, every 8 s on the idle screen, with the same
 * step), wrapping at the length of the list currently loaded. Reloading the
 * list does not reset the index; a failed fetch loads an empty list.
 */
module FactsDisplay {
  import opened Wrappers

  datatype CollegeFact = CollegeFact(id: int, fact: string)

  /**
   * One firing of the rotation timer over a list of `n` facts: the next
   * index, wrapping to the start; with no facts no timer runs and the index
   * stays.
   */
  function Advance(i: nat, n: nat): (r: nat)
    ensures n == 0 ==> r == i
    ensures n > 0 ==> r < n
    ensures n > 0 && i + 1 < n ==> r == i + 1
    ensures n > 0 && i + 1 == n ==> r == 0
  {
    if n == 0 then i else (i + 1) % n
  }

  /** Multiples of `n` lie at least `n` away from 0 unless the factor is 0. */
  lemma {:induction false} MulBound(n: nat, d: int)
    requires n > 0
    ensures d >= 1 ==> n * d >= n
    ensures d <= -1 ==> n * d + n <= 0
    decreases if d >= 0 then d else -d
  {
    if d > 1 {
      MulBound(n, d - 1);
    } else if d < -1 {
      MulBound(n, d + 1);
    }
  }

  /**
   * An index at or past the end of the list advances like the index `n`
   * places earlier, so after a reload that shortens the list the next fact
   * on show is the one the index reaches counting round the new list.
   */
  lemma AdvancePeriodic(i: nat, n: nat)
    requires n > 0 && i >= n
    ensures Advance(i, n) == Advance(i - n, n)
  {
    var j := i + 1 - n;
    var q, m := j / n, j % n;
    var q', m' := (j + n) / n, (j + n) % n;
    assert j == n * q + m && 0 <= m < n;
    assert j + n == n * q' + m' && 0 <= m' < n;
    assert n * (q' - q - 1) == m - m';
    MulBound(n, q' - q - 1);
    assert q' - q - 1 == 0;
  }

  /** `k` firings of the timer over an unchanged list. */
  function AdvanceBy(i: nat, n: nat, k: nat): nat
    decreases k
  {
    if k == 0 then i else AdvanceBy(Advance(i, n), n, k - 1)
  }

  /** Firings compose: `a` then `b` firings are `a + b` firings. */
  lemma {:induction false} AdvanceByAdds(i: nat, n: nat, a: nat, b: nat)
    ensures AdvanceBy(AdvanceBy(i, n, a), n, b) == AdvanceBy(i, n, a + b)
    decreases a
  {
    if a > 0 {
      AdvanceByAdds(Advance(i, n), n, a - 1, b);
    }
  }

  /** From an index before `n - k`, `k` firings move it `k` places on. */
  lemma {:induction false} AdvanceByCounts(i: nat, n: nat, k: nat)
    requires i + k < n
    ensures AdvanceBy(i, n, k) == i + k
    decreases k
  {
    if k > 0 {
      AdvanceByCounts(i + 1, n, k - 1);
    }
  }

  /** From 0 the panel shows facts 0, 1, ..., n - 1 in turn. */
  lemma VisitsInOrder(n: nat, k: nat)
    requires k < n
    ensures AdvanceBy(0, n, k) == k
  {
    AdvanceByCounts(0, n, k);
  }

  /** From any index in range, `n` firings bring the panel back to it. */
  lemma FullCycle(i: nat, n: nat)
    requires i < n
    ensures AdvanceBy(i, n, n) == i
  {
    AdvanceByCounts(i, n, n - 1 - i);
    assert AdvanceBy(i, n, n - i) == 0 by {
      AdvanceByAdds(i, n, n - 1 - i, 1);
    }
    AdvanceByCounts(0, n, i);
    AdvanceByAdds(i, n, n - i, i);
  }

  /** `facts[currentFactIndex]?.fact`: the text on show, or nothing when the index is past the end. */
  function Shown(facts: seq<CollegeFact>, i: nat): (r: Option<string>)
    ensures r.Some? <==> i < |facts|
    ensures r.Some? ==> r.value == facts[i].fact
  {
    if i < |facts| then Some(facts[i].fact) else None
  }

  /** The progress dots: dot `j` is highlighted when it is the current index. */
  function Dots(n: nat, i: nat): (d: seq<bool>)
    ensures |d| == n
    ensures forall j :: 0 <= j < n ==> (d[j] <==> j == i)
  {
    seq(n, j => j == i)
  }

  function CountTrue(d: seq<bool>): nat
    decreases |d|
  {
    if d == [] then 0 else (if d[0] then 1 else 0) + CountTrue(d[1..])
  }

  /** A row of dots lit at exactly position `i` has one lit dot if `i` is in the row, else none. */
  lemma {:induction false} CountSingleLit(d: seq<bool>, i: int)
    requires forall j :: 0 <= j < |d| ==> (d[j] <==> j == i)
    ensures CountTrue(d) == if 0 <= i < |d| then 1 else 0
    decreases |d|
  {
    if d != [] {
      CountSingleLit(d[1..], i - 1);
    }
  }

  /** Exactly one dot is lit, the current one, when the index is in range; none otherwise. */
  lemma OneDotLit(n: nat, i: nat)
    ensures CountTrue(Dots(n, i)) == if i < n then 1 else 0
    ensures i < n ==> Dots(n, i)[i]
  {
    CountSingleLit(Dots(n, i), i);
  }

  /** The panel: the list on show and the current index. */
  datatype Panel = Panel(facts: seq<CollegeFact>, index: nat)

  /**
   * The panel as mounted: the list the screen already holds (empty on the
   * screen's first render) and the index at 0; text shows at once exactly
   * when that list is non-empty, and no dot is lit otherwise.
   */
  function Mount(facts: seq<CollegeFact>): (r: Panel)
    ensures r.facts == facts && r.index == 0
    ensures Shown(r.facts, r.index).Some? <==> facts != []
    ensures facts == [] ==> Dots(|r.facts|, r.index) == []
  {
    Panel(facts, 0)
  }

  /** A new list arrives from the 30 s refresh; the index is left where it was. */
  function Reload(p: Panel, facts: seq<CollegeFact>): (r: Panel)
    ensures r.index == p.index && r.facts == facts
  {
    p.(facts := facts)
  }

  /**
   * One firing of the rotation timer: the next fact, the first one after the
   * last, and an index past the end counts on round the list.
   */
  function Rotate(p: Panel): (r: Panel)
    ensures r.facts == p.facts
    ensures |p.facts| > 0 ==> r.index < |r.facts|
    ensures p.index + 1 < |p.facts| ==> r.index == p.index + 1
    ensures p.index + 1 == |p.facts| ==> r.index == 0
    ensures 0 < |p.facts| <= p.index ==> r.index == Advance(p.index - |p.facts|, |p.facts|)
    ensures |p.facts| == 0 ==> r == p
  {
    if 0 < |p.facts| <= p.index then AdvancePeriodic(p.index, |p.facts|); p.(index := Advance(p.index, |p.facts|))
    else p.(index := Advance(p.index, |p.facts|))
  }

  /** Over an empty list no timer runs, so any number of firings leaves the index where it is. */
  lemma {:induction false} EmptyListHolds(i: nat, j: nat)
    ensures AdvanceBy(i, 0, j) == i
    decreases j
  {
    if j > 0 {
      EmptyListHolds(Advance(i, 0), j - 1);
    }
  }

  /**
   * The panel mounts before any list has arrived, `j` firings pass over the
   * empty list, then the list `facts` arrives: `k` further firings show fact
   * `k`, for every fact in turn.
   */
  lemma FirstLoadInOrder(j: nat, facts: seq<CollegeFact>, k: nat)
    requires k < |facts|
    ensures AdvanceBy(Reload(Panel([], AdvanceBy(Mount([]).index, 0, j)), facts).index, |facts|, k) == k
    ensures Shown(facts, AdvanceBy(Reload(Panel([], AdvanceBy(Mount([]).index, 0, j)), facts).index, |facts|, k))
            == Some(facts[k].fact)
  {
    EmptyListHolds(0, j);
    VisitsInOrder(|facts|, k);
  }

  /**
   * A reload that shortens the list can leave the index past its end, so the
   * panel shows no text; the next firing brings it back into range.
   */
  lemma ShrinkThenRotate(p: Panel, facts: seq<CollegeFact>)
    requires |facts| > 0 && p.index >= |facts|
    ensures Shown(Reload(p, facts).facts, Reload(p, facts).index).None?
    ensures Shown(Rotate(Reload(p, facts)).facts, Rotate(Reload(p, facts)).index).Some?
  {
  }

  /**
   * With three facts the index runs 0, 1, 2, 0, ... and never passes 2, so
   * a panel mounted at 0 over them always shows a fact.
   */
  lemma ThreeFactsCycle(facts: seq<CollegeFact>)
    requires |facts| == 3
    ensures AdvanceBy(0, 3, 1) == 1 && AdvanceBy(0, 3, 2) == 2 && AdvanceBy(0, 3, 3) == 0
    ensures forall k: nat :: AdvanceBy(0, 3, k) <= 2 && Shown(facts, AdvanceBy(0, 3, k)).Some?
  {
    FullCycle(0, 3);
    forall k: nat ensures AdvanceBy(0, 3, k) <= 2 && Shown(facts, AdvanceBy(0, 3, k)).Some? {
      AdvanceByStaysInRange(0, 3, k);
    }
  }

  /** Over a non-empty list, firings keep an in-range index in range. */
  lemma {:induction false} AdvanceByStaysInRange(i: nat, n: nat, k: nat)
    requires i < n
    ensures AdvanceBy(i, n, k) < n
    decreases k
  {
    if k > 0 {
      AdvanceByStaysInRange(Advance(i, n), n, k - 1);
    }
  }
}
