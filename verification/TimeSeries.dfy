/**
 Time-stamped records as the exchange keeps them: a history in ascending order of time.
 Candles and funding rates are both such records.
 */
module TimeSeries {

  datatype Record<V> = Record(time: int, value: V)

  predicate Ascending<V>(h: seq<Record<V>>)
  {
    forall i, j :: 0 <= i < j < |h| ==> h[i].time < h[j].time
  }

  /** The one-line specification of a download: the records with from <= time <= to, in order. */
  function Range<V>(h: seq<Record<V>>, from: int, to: int): seq<Record<V>>
  {
    if h == [] then []
    else (if from <= h[0].time <= to then [h[0]] else []) + Range(h[1..], from, to)
  }

  /** The records from time t on, in order. */
  function Since<V>(h: seq<Record<V>>, t: int): seq<Record<V>>
  {
    if h == [] then []
    else (if t <= h[0].time then [h[0]] else []) + Since(h[1..], t)
  }

  /** How many of the oldest records lie before time t; in an ascending history, where t starts. */
  function FirstAt<V>(h: seq<Record<V>>, t: int): (i: nat)
    ensures i <= |h|
    ensures forall k :: 0 <= k < i ==> h[k].time < t
    ensures i < |h| ==> h[i].time >= t
  {
    if h == [] || h[0].time >= t then 0 else 1 + FirstAt(h[1..], t)
  }

  function Reverse<T>(s: seq<T>): (r: seq<T>)
    ensures |r| == |s|
  {
    if s == [] then [] else Reverse(s[1..]) + [s[0]]
  }

  lemma {:induction false} ReverseAt<T>(s: seq<T>)
    ensures forall i :: 0 <= i < |s| ==> Reverse(s)[i] == s[|s| - 1 - i]
  {
    if s != [] {
      ReverseAt(s[1..]);
    }
  }

  function Flatten<T>(ss: seq<seq<T>>): seq<T>
  {
    if ss == [] then [] else ss[0] + Flatten(ss[1..])
  }

  lemma NothingYet<T>()
    ensures Flatten<T>([]) == []
  {
  }

  lemma {:induction false} FlattenOne<T>(ss: seq<seq<T>>, s: seq<T>)
    ensures Flatten(ss + [s]) == Flatten(ss) + s
  {
    if ss == [] {
      assert ss + [s] == [s];
    } else {
      assert (ss + [s])[1..] == ss[1..] + [s];
      FlattenOne(ss[1..], s);
    }
  }

  lemma ReverseTwice<T>(s: seq<T>)
    ensures Reverse(Reverse(s)) == s
  {
    ReverseAt(s);
    ReverseAt(Reverse(s));
  }

  lemma ReverseConcat<T>(a: seq<T>, b: seq<T>)
    ensures Reverse(a + b) == Reverse(b) + Reverse(a)
  {
    ReverseAt(a);
    ReverseAt(b);
    ReverseAt(a + b);
  }

  lemma {:induction false} RangeConcat<V>(a: seq<Record<V>>, b: seq<Record<V>>, from: int, to: int)
    ensures Range(a + b, from, to) == Range(a, from, to) + Range(b, from, to)
  {
    if a == [] {
      assert a + b == b;
    } else {
      assert (a + b)[1..] == a[1..] + b;
      RangeConcat(a[1..], b, from, to);
    }
  }

  /** Every record inside: the range is the whole sequence. */
  lemma {:induction false} RangeAll<V>(h: seq<Record<V>>, from: int, to: int)
    requires forall i :: 0 <= i < |h| ==> from <= h[i].time <= to
    ensures Range(h, from, to) == h
  {
    if h != [] {
      RangeAll(h[1..], from, to);
      assert h == [h[0]] + h[1..];
    }
  }

  /** Every record outside: the range is empty. */
  lemma {:induction false} RangeNone<V>(h: seq<Record<V>>, from: int, to: int)
    requires forall i :: 0 <= i < |h| ==> h[i].time < from || to < h[i].time
    ensures Range(h, from, to) == []
  {
    if h != [] {
      RangeNone(h[1..], from, to);
    }
  }

  /** Raising the lower end to a bound that no record lies below changes nothing. */
  lemma {:induction false} RangeRaise<V>(h: seq<Record<V>>, from: int, from': int, to: int)
    requires forall i :: 0 <= i < |h| ==> (from <= h[i].time <==> from' <= h[i].time)
    ensures Range(h, from, to) == Range(h, from', to)
  {
    if h != [] {
      RangeRaise(h[1..], from, from', to);
    }
  }

  lemma {:induction false} SinceBound<V>(h: seq<Record<V>>, t: int)
    ensures forall i :: 0 <= i < |Since(h, t)| ==> Since(h, t)[i].time >= t
  {
    if h != [] {
      SinceBound(h[1..], t);
    }
  }

  lemma {:induction false} SinceSlice<V>(h: seq<Record<V>>, t: int)
    requires Ascending(h)
    ensures Since(h, t) == h[FirstAt(h, t)..]
  {
    if h == [] {
    } else {
      SinceSlice(h[1..], t);
      if t <= h[0].time {
        assert FirstAt(h[1..], t) == 0;
        assert h == [h[0]] + h[1..];
      }
    }
  }

  /** Records before the range can be skipped. */
  lemma RangeSkip<V>(x: seq<Record<V>>, s: seq<Record<V>>, from: int, to: int)
    requires forall i :: 0 <= i < |x| ==> x[i].time < from
    ensures Range(x + s, from, to) == Range(s, from, to)
  {
    RangeConcat(x, s, from, to);
    RangeNone(x, from, to);
  }

  /** Records inside the range are all taken. */
  lemma RangeTake<V>(y: seq<Record<V>>, s: seq<Record<V>>, from: int, to: int)
    requires forall i :: 0 <= i < |y| ==> from <= y[i].time <= to
    ensures Range(y + s, from, to) == y + Range(s, from, to)
  {
    RangeConcat(y, s, from, to);
    RangeAll(y, from, to);
  }

  /** Records after the range can be dropped. */
  lemma RangeDrop<V>(s: seq<Record<V>>, z: seq<Record<V>>, from: int, to: int)
    requires forall i :: 0 <= i < |z| ==> to < z[i].time
    ensures Range(s + z, from, to) == Range(s, from, to)
  {
    RangeConcat(s, z, from, to);
    RangeNone(z, from, to);
  }

  /** Three stretches of a history: before the range, inside it, and from a later start on. */
  lemma RangeParts<V>(x: seq<Record<V>>, y: seq<Record<V>>, z: seq<Record<V>>, from: int, from': int, to: int)
    requires forall i :: 0 <= i < |x| ==> x[i].time < from
    requires forall i :: 0 <= i < |y| ==> from <= y[i].time <= to && y[i].time < from'
    requires forall i :: 0 <= i < |z| ==> from' <= z[i].time
    requires from <= from'
    ensures Range(x + (y + z), from, to) == y + Range(x + (y + z), from', to)
  {
    RangeSkip(x, y + z, from, to);
    RangeTake(y, z, from, to);
    RangeSkip(x, y + z, from', to);
    RangeSkip(y, z, from', to);
    RangeRaise(z, from, from', to);
  }

  /** In an ascending history a range is a contiguous slice, with known ends. */
  lemma RangeSlice<V>(h: seq<Record<V>>, from: int, to: int)
    requires Ascending(h)
    ensures var lo, hi := FirstAt(h, from), FirstAt(h, to + 1);
            Range(h, from, to) == if lo <= hi then h[lo..hi] else []
  {
    var lo, hi := FirstAt(h, from), FirstAt(h, to + 1);
    if lo <= hi {
      RangeCut(h, from, to, lo, hi);
    } else {
      RangeNone(h, from, to);
    }
  }

  lemma RangeAscends<V>(h: seq<Record<V>>, from: int, to: int)
    requires Ascending(h)
    ensures Ascending(Range(h, from, to))
  {
    hide Range;
    RangeSlice(h, from, to);
  }

  /** The slice form, for callers that know where the ends are. */
  lemma RangeCut<V>(h: seq<Record<V>>, from: int, to: int, lo: nat, hi: nat)
    requires lo <= hi <= |h|
    requires forall i :: 0 <= i < lo ==> h[i].time < from
    requires forall i :: lo <= i < hi ==> from <= h[i].time <= to
    requires forall i :: hi <= i < |h| ==> to < h[i].time
    ensures Range(h, from, to) == h[lo..hi]
  {
    assert h == h[..lo] + (h[lo..hi] + h[hi..]);
    RangeSkip(h[..lo], h[lo..hi] + h[hi..], from, to);
    RangeDrop(h[lo..hi], h[hi..], from, to);
    RangeAll(h[lo..hi], from, to);
  }

  /** Membership: exactly the records in the interval. */
  lemma {:induction false} RangeMembers<V>(h: seq<Record<V>>, from: int, to: int, r: Record<V>)
    ensures r in Range(h, from, to) <==> r in h && from <= r.time <= to
  {
    if h != [] {
      RangeMembers(h[1..], from, to, r);
    }
  }

  lemma {:induction false} RangeBounds<V>(h: seq<Record<V>>, from: int, to: int)
    ensures forall i :: 0 <= i < |Range(h, from, to)| ==> from <= Range(h, from, to)[i].time <= to
  {
    if h != [] {
      RangeBounds(h[1..], from, to);
    }
  }

  /** The records up to a time, in order. */
  function UpTo<V>(s: seq<Record<V>>, to: int): seq<Record<V>>
  {
    if s == [] then [] else (if s[0].time <= to then [s[0]] else []) + UpTo(s[1..], to)
  }

  lemma {:induction false} NothingUpTo<V>(s: seq<Record<V>>, to: int)
    requires forall i :: 0 <= i < |s| ==> s[i].time > to
    ensures UpTo(s, to) == []
  {
    if s != [] {
      NothingUpTo(s[1..], to);
    }
  }

  lemma {:induction false} UpToConcat<V>(a: seq<Record<V>>, b: seq<Record<V>>, to: int)
    ensures UpTo(a + b, to) == UpTo(a, to) + UpTo(b, to)
  {
    if a == [] {
      assert a + b == b;
    } else {
      assert (a + b)[1..] == a[1..] + b;
      UpToConcat(a[1..], b, to);
      assert UpTo(a + b, to) == (if a[0].time <= to then [a[0]] else []) + UpTo(a[1..] + b, to);
    }
  }

  lemma {:induction false} UpToMembers<V>(s: seq<Record<V>>, to: int, r: Record<V>)
    ensures r in UpTo(s, to) <==> r in s && r.time <= to
  {
    if s != [] {
      UpToMembers(s[1..], to, r);
    }
  }

  /** In an ascending history the records up to `to` come first. */
  lemma {:induction false} UpToIsPrefix<V>(s: seq<Record<V>>, to: int)
    requires Ascending(s)
    ensures UpTo(s, to) <= s
  {
    if s != [] {
      if s[0].time <= to {
        UpToIsPrefix(s[1..], to);
        assert s == [s[0]] + s[1..];
      } else {
        NothingUpTo(s, to);
      }
    }
  }

  lemma {:induction false} UpToRange<V>(s: seq<Record<V>>, from: int, to: int)
    requires forall i :: 0 <= i < |s| ==> from <= s[i].time
    ensures UpTo(s, to) == Range(s, from, to)
  {
    if s != [] {
      UpToRange(s[1..], from, to);
    }
  }
}
