/**
 The sort of the index-correction results by read chunk id before stage 3.
 Python's `sorted` is stable. It is modelled as an insertion sort that puts
 each result after every earlier one with the same id, so results sharing an
 id keep their arrival order.
 */
module StableSort {
  import opened Records

  /** Non-decreasing in read chunk id. */
  ghost predicate SortedById<H>(s: seq<CorrectedIndex<H>>) {
    forall i, j :: 0 <= i < j < |s| ==> s[i].fqId <= s[j].fqId
  }

  /** The subsequence of `s` reporting read chunk `id`. */
  function WithId<H>(s: seq<CorrectedIndex<H>>, id: nat): seq<CorrectedIndex<H>> {
    if |s| == 0 then []
    else (if s[0].fqId == id then [s[0]] else []) + WithId(s[1..], id)
  }

  /**
   Places `x` after every element whose id is at most its own, keeping the
   list sorted; later arrivals follow earlier ones with the same id.
   */
  function Insert<H>(s: seq<CorrectedIndex<H>>, x: CorrectedIndex<H>): (r: seq<CorrectedIndex<H>>)
    requires SortedById(s)
    ensures SortedById(r)
    ensures |r| == |s| + 1
    ensures forall i :: 0 <= i < |r| ==> r[i] == x || r[i] in s
  {
    if |s| == 0 then [x]
    else if s[0].fqId <= x.fqId then
      var rest := Insert(s[1..], x);
      assert forall i :: 0 <= i < |rest| ==> s[0].fqId <= rest[i].fqId by {
        forall i | 0 <= i < |rest|
          ensures s[0].fqId <= rest[i].fqId
        {
          if rest[i] != x {
            var k :| 0 <= k < |s[1..]| && s[1..][k] == rest[i];
            assert s[k + 1] == rest[i];
          }
        }
      }
      assert forall i :: 0 <= i < |rest| ==> rest[i] in s[1..] ==> rest[i] in s;
      [s[0]] + rest
    else [x] + s
  }

  /** `sorted(corrected_indexes, key=lambda tup: tup[0])` */
  function SortById<H>(s: seq<CorrectedIndex<H>>): (r: seq<CorrectedIndex<H>>)
    ensures SortedById(r)
    ensures |r| == |s|
    ensures forall i :: 0 <= i < |r| ==> r[i] in s
  {
    if |s| == 0 then []
    else
      var pre := s[..|s| - 1];
      var r := Insert(SortById(pre), s[|s| - 1]);
      assert forall i :: 0 <= i < |r| ==> r[i] in pre ==> r[i] in s;
      r
  }

  lemma {:induction false} InsertPermutes<H>(s: seq<CorrectedIndex<H>>, x: CorrectedIndex<H>)
    requires SortedById(s)
    ensures multiset(Insert(s, x)) == multiset(s) + multiset{x}
  {
    if |s| > 0 && s[0].fqId <= x.fqId {
      InsertPermutes(s[1..], x);
      assert s == [s[0]] + s[1..];
    }
  }

  /** The sorted list is a permutation of the correction results. */
  lemma {:induction false} SortByIdPermutes<H>(s: seq<CorrectedIndex<H>>)
    ensures multiset(SortById(s)) == multiset(s)
  {
    if |s| > 0 {
      var pre := s[..|s| - 1];
      SortByIdPermutes(pre);
      InsertPermutes(SortById(pre), s[|s| - 1]);
      assert s == pre + [s[|s| - 1]];
    }
  }

  lemma {:induction false} WithIdConcat<H>(a: seq<CorrectedIndex<H>>, b: seq<CorrectedIndex<H>>, id: nat)
    ensures WithId(a + b, id) == WithId(a, id) + WithId(b, id)
  {
    if |a| == 0 {
      assert a + b == b;
    } else {
      var head := if a[0].fqId == id then [a[0]] else [];
      assert (a + b)[0] == a[0];
      assert (a + b)[1..] == a[1..] + b;
      WithIdConcat(a[1..], b, id);
      assert WithId(a + b, id) == head + WithId(a[1..] + b, id);
    }
  }

  lemma {:induction false} WithIdAbove<H>(s: seq<CorrectedIndex<H>>, id: nat)
    requires forall i :: 0 <= i < |s| ==> s[i].fqId > id
    ensures WithId(s, id) == []
  {
    if |s| > 0 {
      WithIdAbove(s[1..], id);
    }
  }

  lemma {:induction false} InsertIsStable<H>(s: seq<CorrectedIndex<H>>, x: CorrectedIndex<H>, id: nat)
    requires SortedById(s)
    ensures WithId(Insert(s, x), id) == WithId(s, id) + WithId([x], id)
    decreases |s|
  {
    if |s| == 0 {
      assert Insert(s, x) == [x];
      assert WithId(s, id) == [];
    } else if s[0].fqId <= x.fqId {
      InsertAfterHeadIsStable(s, x, id);
    } else {
      assert Insert(s, x) == [x] + s;
      WithIdConcat([x], s, id);
      if x.fqId == id {
        WithIdAbove(s, id);
      }
    }
  }

  lemma {:induction false} InsertAfterHeadIsStable<H>(s: seq<CorrectedIndex<H>>, x: CorrectedIndex<H>, id: nat)
    requires SortedById(s) && |s| > 0 && s[0].fqId <= x.fqId
    ensures WithId(Insert(s, x), id) == WithId(s, id) + WithId([x], id)
    decreases |s|, 0
  {
    var rest := Insert(s[1..], x);
    var head := if s[0].fqId == id then [s[0]] else [];
    InsertAfterHead(s, x);
    WithIdCons(s[0], rest, id);
    InsertIsStable(s[1..], x, id);
    assert WithId(s, id) == head + WithId(s[1..], id);
    Regroup(WithId(Insert(s, x), id), WithId(s, id), head, WithId(rest, id), WithId(s[1..], id), WithId([x], id));
  }

  /** Prefixing `head` to both sides of `mid == tail + extra`. */
  lemma Regroup<T>(whole: seq<T>, front: seq<T>, head: seq<T>, mid: seq<T>, tail: seq<T>, extra: seq<T>)
    requires whole == head + mid && front == head + tail && mid == tail + extra
    ensures whole == front + extra
  {
  }

  /** An element no larger than `x` stays in front of it. */
  lemma InsertAfterHead<H>(s: seq<CorrectedIndex<H>>, x: CorrectedIndex<H>)
    requires SortedById(s) && |s| > 0 && s[0].fqId <= x.fqId
    ensures SortedById(s[1..])
    ensures Insert(s, x) == [s[0]] + Insert(s[1..], x)
  {
    assert SortedById(s[1..]);
  }

  lemma WithIdCons<H>(h: CorrectedIndex<H>, t: seq<CorrectedIndex<H>>, id: nat)
    ensures WithId([h] + t, id) == (if h.fqId == id then [h] else []) + WithId(t, id)
  {
    assert ([h] + t)[1..] == t;
  }

  /**
   The sort is stable: for every read chunk id, the results reporting it keep
   their relative order.
   */
  lemma {:induction false} SortByIdIsStable<H>(s: seq<CorrectedIndex<H>>, id: nat)
    ensures WithId(SortById(s), id) == WithId(s, id)
  {
    if |s| > 0 {
      var pre := s[..|s| - 1];
      var last := s[|s| - 1];
      SortByIdIsStable(pre, id);
      InsertIsStable(SortById(pre), last, id);
      assert s == pre + [last];
      WithIdConcat(pre, [last], id);
    }
  }

  lemma {:induction false} InsertAtEnd<H>(s: seq<CorrectedIndex<H>>, x: CorrectedIndex<H>)
    requires SortedById(s)
    requires forall i :: 0 <= i < |s| ==> s[i].fqId <= x.fqId
    ensures Insert(s, x) == s + [x]
  {
    if |s| > 0 {
      InsertAtEnd(s[1..], x);
      assert s == [s[0]] + s[1..];
    }
  }

  /** Sorting an already sorted list returns it unchanged. */
  lemma {:induction false} SortByIdIdempotent<H>(s: seq<CorrectedIndex<H>>)
    requires SortedById(s)
    ensures SortById(s) == s
  {
    if |s| > 0 {
      var pre := s[..|s| - 1];
      SortByIdIdempotent(pre);
      InsertAtEnd(pre, s[|s| - 1]);
    }
  }

  lemma {:induction false} InsertKeepsDistinct<H>(s: seq<CorrectedIndex<H>>, x: CorrectedIndex<H>)
    requires SortedById(s) && DistinctIds(s)
    requires forall i :: 0 <= i < |s| ==> s[i].fqId != x.fqId
    ensures DistinctIds(Insert(s, x))
  {
    if |s| > 0 && s[0].fqId <= x.fqId {
      var rest := Insert(s[1..], x);
      InsertKeepsDistinct(s[1..], x);
      forall i | 0 <= i < |rest|
        ensures rest[i].fqId != s[0].fqId
      {
        if rest[i] != x {
          var k :| 0 <= k < |s[1..]| && s[1..][k] == rest[i];
          assert s[k + 1] == rest[i];
        }
      }
    }
  }

  lemma {:induction false} SortKeepsDistinct<H>(s: seq<CorrectedIndex<H>>)
    requires DistinctIds(s)
    ensures DistinctIds(SortById(s))
  {
    if |s| > 0 {
      var pre := s[..|s| - 1];
      var last := s[|s| - 1];
      var t := SortById(pre);
      SortKeepsDistinct(pre);
      forall i | 0 <= i < |t|
        ensures t[i].fqId != last.fqId
      {
        var k :| 0 <= k < |pre| && pre[k] == t[i];
        assert s[k] == t[i];
      }
      InsertKeepsDistinct(t, last);
    }
  }

  lemma {:induction false} DensePrefixPositions<H>(r: seq<CorrectedIndex<H>>, n: nat)
    requires SortedById(r) && DistinctIds(r) && Covers(r, n)
    ensures n <= |r|
    ensures forall v :: 0 <= v < n ==> r[v].fqId == v
  {
    if n > 0 {
      DensePrefixPositions(r, n - 1);
      assert HasCorrection(r, n - 1);
      var i :| 0 <= i < |r| && r[i].fqId == n - 1;
      if n >= 2 {
        assert r[n - 2].fqId == n - 2;
      }
      assert n - 1 <= i;
    }
  }

  /**
   When the correction results have distinct ids covering `0..n-1`, the
   entry at sorted position `v < n` is the result reporting read chunk `v`.
   */
  lemma SortedLookupMatchesId<H>(c: seq<CorrectedIndex<H>>, n: nat)
    requires DistinctIds(c) && Covers(c, n)
    ensures n <= |SortById(c)|
    ensures forall v :: 0 <= v < n ==> SortById(c)[v].fqId == v && SortById(c)[v] in c
  {
    var r := SortById(c);
    SortKeepsDistinct(c);
    SortByIdPermutes(c);
    forall v: nat | v < n
      ensures HasCorrection(r, v)
    {
      assert HasCorrection(c, v);
      var j :| 0 <= j < |c| && c[j].fqId == v;
      assert c[j] in multiset(r);
      var i :| 0 <= i < |r| && r[i] == c[j];
    }
    DensePrefixPositions(r, n);
  }
}
