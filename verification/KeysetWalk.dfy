/**
 * Reading a changing collection page by page: each read takes the first rows,
 * in a strict total order, that lie after the last row of the page before.
 */
module KeysetWalk {
  import opened Options
  import opened Ordering
  import opened Slices

  /**
   * One read: the qualifying rows at that moment, the position it resumed from,
   * the page it got, and whether the reader stopped there.
   */
  datatype Step<K> = Step(rows: set<K>, after: Option<K>, page: seq<K>, final: bool)

  function Beyond<K(==)>(rows: set<K>, after: Option<K>, less: (K, K) -> bool): set<K> {
    set x | x in rows && (after.Some? ==> less(after.value, x))
  }

  function Window<K(==, !new)>(rows: set<K>, after: Option<K>, limit: nat, less: (K, K) -> bool): (page: seq<K>)
    requires StrictTotalOrder(less)
    ensures Ascending(page, less)
    ensures forall x :: x in page ==> x in Beyond(rows, after, less)
    ensures |page| == if |Beyond(rows, after, less)| <= limit then |Beyond(rows, after, less)| else limit
  {
    var all := Sort(Beyond(rows, after, less), less);
    Take(all, limit)
  }

  /** The page is the window at the position; the reader stops only on a page that holds everything left. */
  ghost predicate Reads<K(!new)>(step: Step<K>, limit: nat, less: (K, K) -> bool)
    requires StrictTotalOrder(less)
  {
    && step.page == Window(step.rows, step.after, limit, less)
    && (step.final ==> |step.page| == |Beyond(step.rows, step.after, less)|)
  }

  predicate Resumes<K(==)>(step: Step<K>, next: Step<K>) {
    !step.final && step.page != [] && next.after == Some(step.page[|step.page| - 1])
  }

  ghost predicate Walk<K(!new)>(steps: seq<Step<K>>, limit: nat, less: (K, K) -> bool)
    requires StrictTotalOrder(less)
  {
    && (forall k :: 0 <= k < |steps| ==> Reads(steps[k], limit, less))
    && (steps != [] ==> steps[0].after == None)
    && (forall k, m :: 0 <= k < |steps| && m == k + 1 && m < |steps| ==> Resumes(steps[k], steps[m]))
  }

  predicate Complete<K>(steps: seq<Step<K>>) {
    steps != [] && steps[|steps| - 1].final
  }

  function Handed<K>(steps: seq<Step<K>>): seq<K> {
    if steps == [] then [] else Handed(steps[..|steps| - 1]) + steps[|steps| - 1].page
  }

  lemma AscendingConcat<K(!new)>(a: seq<K>, b: seq<K>, less: (K, K) -> bool)
    requires StrictTotalOrder(less) && Ascending(a, less) && Ascending(b, less)
    requires forall y :: y in b ==> a == [] || less(a[|a| - 1], y)
    ensures Ascending(a + b, less)
  {
    var c := a + b;
    forall i, j | 0 <= i < j < |c|
      ensures less(c[i], c[j])
    {
      if i < |a| <= j {
        assert c[j] == b[j - |a|] && c[j] in b;
        assert i < |a| - 1 ==> less(a[i], a[|a| - 1]);
      }
    }
  }

  predicate Admits<K(==)>(step: Step<K>, x: K, less: (K, K) -> bool) {
    step.after.Some? ==> less(step.after.value, x)
  }

  lemma PageFacts<K(!new)>(step: Step<K>, limit: nat, less: (K, K) -> bool)
    requires StrictTotalOrder(less) && Reads(step, limit, less)
    ensures Ascending(step.page, less)
    ensures forall x :: x in step.page ==> Admits(step, x, less) && x in step.rows
  {
    hide Window;
    assert forall x :: x in step.page ==> x in Beyond(step.rows, step.after, less);
  }

  /** Rows come out strictly ascending over all pages: nothing is handed out twice. */
  lemma {:induction false} HandedAscending<K(!new)>(steps: seq<Step<K>>, limit: nat, less: (K, K) -> bool)
    requires StrictTotalOrder(less) && Walk(steps, limit, less)
    ensures Ascending(Handed(steps), less)
    ensures steps != [] && steps[|steps| - 1].page != [] ==>
              Handed(steps) != [] && Last(Handed(steps)) == Last(steps[|steps| - 1].page)
  {
    hide Reads, Ascending, StrictTotalOrder;
    if steps != [] {
      var last := |steps| - 1;
      var before := steps[..last];
      HandedAscending(before, limit, less);
      PageFacts(steps[last], limit, less);
      if before != [] {
        assert Resumes(steps[last - 1], steps[last]);
        assert before[last - 1] == steps[last - 1];
      }
      AscendingConcat(Handed(before), steps[last].page, less);
    } else {
      NothingAscends(less);
    }
  }

  function Last<K>(s: seq<K>): K
    requires s != []
  {
    s[|s| - 1]
  }

  lemma NothingAscends<K>(less: (K, K) -> bool)
    ensures Ascending([], less)
  {
  }

  // ------------------------------------------------------------ completeness

  /** The page extends at least as far as x. */
  predicate Reaches<K(==)>(step: Step<K>, x: K, less: (K, K) -> bool) {
    step.final || (step.page != [] && !less(step.page[|step.page| - 1], x))
  }

  /** The first read whose page extends as far as x. */
  function Covering<K(==)>(steps: seq<Step<K>>, x: K, less: (K, K) -> bool, from: nat): (k: nat)
    requires Complete(steps) && from < |steps|
    ensures from <= k < |steps| && Reaches(steps[k], x, less)
    ensures forall j :: from <= j < k ==> !Reaches(steps[j], x, less)
    decreases |steps| - from
  {
    if Reaches(steps[from], x, less) then from else Covering(steps, x, less, from + 1)
  }

  /** A page that extends as far as a row after its starting point contains it. */
  lemma ReachedIsListed<K(!new)>(step: Step<K>, limit: nat, x: K, less: (K, K) -> bool)
    requires StrictTotalOrder(less) && Reads(step, limit, less)
    requires x in step.rows && Admits(step, x, less) && Reaches(step, x, less)
    ensures x in step.page
  {
    var all := Sort(Beyond(step.rows, step.after, less), less);
    assert x in all;
    var m :| 0 <= m < |all| && all[m] == x;
    var n := |step.page|;
    assert step.page == all[..n];
    assert forall i :: 0 <= i < m ==> less(all[i], all[m]);
    assert n > 0 ==> step.page[n - 1] == all[n - 1];
    if m >= n {
      assert false;
    }
    assert step.page[m] == x;
  }

  lemma ListedIsReached<K(!new)>(step: Step<K>, limit: nat, x: K, less: (K, K) -> bool)
    requires StrictTotalOrder(less) && Reads(step, limit, less) && x in step.page
    ensures x in step.rows && Admits(step, x, less) && Reaches(step, x, less)
  {
    assert x in Beyond(step.rows, step.after, less);
    var i :| 0 <= i < |step.page| && step.page[i] == x;
    var last := step.page[|step.page| - 1];
    assert i < |step.page| - 1 ==> less(x, last);
    assert less(x, last) && less(last, x) ==> less(x, x);
  }

  /** What a later read admits lies beyond every earlier page. */
  lemma {:induction false} LaterReadsLieBeyond<K(!new)>(
    steps: seq<Step<K>>, limit: nat, k: nat, j: nat, x: K, less: (K, K) -> bool)
    requires StrictTotalOrder(less) && Walk(steps, limit, less)
    requires k < j < |steps| && Admits(steps[j], x, less)
    ensures steps[k].page != [] && less(steps[k].page[|steps[k].page| - 1], x)
  {
    hide Reads;
    assert Resumes(steps[j - 1], steps[j]);
    var page := steps[j - 1].page;
    var last := page[|page| - 1];
    if k < j - 1 {
      assert last in page;
      ListedIsReached(steps[j - 1], limit, last, less);
      LaterReadsLieBeyond(steps, limit, k, j - 1, last, less);
    }
  }

  /**
   * Over any changing collection, a row is listed on exactly one page if it was
   * there when that page, the first to extend so far, was read, and on none
   * otherwise.
   */
  lemma WalkIsComplete<K(!new)>(steps: seq<Step<K>>, limit: nat, x: K, less: (K, K) -> bool)
    requires StrictTotalOrder(less) && Walk(steps, limit, less) && Complete(steps)
    ensures var k := Covering(steps, x, less, 0);
            && (x in steps[k].page <==> x in steps[k].rows)
            && (forall j :: 0 <= j < |steps| && j != k ==> x !in steps[j].page)
  {
    hide Reads;
    var k := Covering(steps, x, less, 0);
    CoveringAdmits(steps, limit, x, less);
    if x in steps[k].rows { ReachedIsListed(steps[k], limit, x, less); }
    if x in steps[k].page { ListedIsReached(steps[k], limit, x, less); }
    assert k + 1 < |steps| ==> Resumes(steps[k], steps[k + 1]);
    forall j | 0 <= j < |steps| && j != k
      ensures x !in steps[j].page
    {
      if x in steps[j].page {
        ListedIsReached(steps[j], limit, x, less);
        if j > k {
          LaterReadsLieBeyond(steps, limit, k, j, x, less);
        }
      }
    }
  }

  lemma CoveringAdmits<K(!new)>(steps: seq<Step<K>>, limit: nat, x: K, less: (K, K) -> bool)
    requires StrictTotalOrder(less) && Walk(steps, limit, less) && Complete(steps)
    ensures Admits(steps[Covering(steps, x, less, 0)], x, less)
  {
    hide Reads;
    var k := Covering(steps, x, less, 0);
    if k > 0 {
      assert Resumes(steps[k - 1], steps[k]);
      assert !Reaches(steps[k - 1], x, less);
    }
  }

  /** Resuming after a row that was still ahead leaves strictly fewer rows ahead. */
  lemma FewerBeyond<K(!new)>(rows: set<K>, after: Option<K>, last: K, less: (K, K) -> bool)
    requires StrictTotalOrder(less) && last in Beyond(rows, after, less)
    ensures |Beyond(rows, Some(last), less)| < |Beyond(rows, after, less)|
  {
    var now, later := Beyond(rows, after, less), Beyond(rows, Some(last), less);
    assert later <= now - {last};
    SmallerSet(later, now - {last});
  }

  // ---------------------------------------------------- an unchanging collection

  /** After the m-th row of the sorted list comes its next stretch. */
  lemma WindowOfSorted<K(!new)>(rows: set<K>, m: nat, limit: nat, less: (K, K) -> bool)
    requires StrictTotalOrder(less) && m <= |rows|
    ensures var all := Sort(rows, less);
            var after := if m == 0 then None else Some(all[m - 1]);
            && Window(rows, after, limit, less) == Take(all[m..], limit)
            && |Beyond(rows, after, less)| == |rows| - m
  {
    var all := Sort(rows, less);
    var after := if m == 0 then None else Some(all[m - 1]);
    var beyond := Beyond(rows, after, less);
    forall x
      ensures x in all[m..] <==> x in beyond
    {
      SuffixIsBeyond(all, m, x, less);
    }
    assert Ascending(all[m..], less);
    AscendingUnique(all[m..], Sort(beyond, less), less);
  }

  lemma SuffixIsBeyond<K(!new)>(all: seq<K>, m: nat, x: K, less: (K, K) -> bool)
    requires StrictTotalOrder(less) && Ascending(all, less) && m <= |all|
    ensures x in all[m..] <==> x in all && (m > 0 ==> less(all[m - 1], x))
  {
    if x in all {
      var i :| 0 <= i < |all| && all[i] == x;
      if i >= m {
        assert all[m..][i - m] == x;
      } else {
        assert i < m - 1 ==> less(x, all[m - 1]);
        assert less(x, all[m - 1]) && less(all[m - 1], x) ==> less(x, x);
        assert forall j :: m <= j < |all| ==> less(x, all[j]);
        assert x !in all[m..];
      }
    }
  }
}
