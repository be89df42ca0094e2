/** Array.prototype operations the services chain together: `filter`,
    `map(...).filter(Boolean)`, `slice(0, n)` and the stable `sort`. */
module Seqs {
  import opened Wrappers

  /** `a` is `b` with some elements left out and the rest in order. */
  ghost predicate Subsequence<T>(a: seq<T>, b: seq<T>)
    decreases |b|
  {
    |a| == 0 || (|b| > 0 && ((a[0] == b[0] && Subsequence(a[1..], b[1..])) || Subsequence(a, b[1..])))
  }

  /** `s.filter(p)`: exactly the elements satisfying `p`, in their order. */
  function Filter<T(!new)>(s: seq<T>, p: T -> bool): (r: seq<T>)
    ensures |r| <= |s|
    ensures forall i :: 0 <= i < |r| ==> p(r[i])
    ensures forall i :: 0 <= i < |r| ==> r[i] in s
    ensures forall i :: 0 <= i < |s| && p(s[i]) ==> s[i] in r
    ensures Subsequence(r, s)
  {
    if |s| == 0 then []
    else
      assert s == [s[0]] + s[1..];
      if p(s[0]) then [s[0]] + Filter(s[1..], p)
      else Filter(s[1..], p)
  }

  /** Filtering keeps every passing element as many times as it occurs
      and drops every other one. */
  lemma {:induction false} FilterCounts<T(!new)>(s: seq<T>, p: T -> bool)
    ensures forall x :: multiset(Filter(s, p))[x] == if p(x) then multiset(s)[x] else 0
  {
    if |s| > 0 {
      FilterCounts(s[1..], p);
      assert s == [s[0]] + s[1..];
    }
  }

  /** Filtering keeps everything exactly when every element passes. */
  lemma {:induction false} FilterAll<T(!new)>(s: seq<T>, p: T -> bool)
    requires forall i :: 0 <= i < |s| ==> p(s[i])
    ensures Filter(s, p) == s
  {
    if |s| > 0 {
      FilterAll(s[1..], p);
      assert [s[0]] + s[1..] == s;
    }
  }

  /** Filtering a sorted sequence leaves it sorted. */
  lemma {:induction false} FilterSorted<T(!new)>(s: seq<T>, p: T -> bool, le: (T, T) -> bool)
    requires SortedBy(s, le)
    ensures SortedBy(Filter(s, p), le)
  {
    if |s| > 0 {
      var t := s[1..];
      assert SortedBy(t, le) by {
        forall i, j | 0 <= i < j < |t| ensures le(t[i], t[j]) {
          assert t[i] == s[i + 1] && t[j] == s[j + 1];
        }
      }
      FilterSorted(t, p, le);
      if p(s[0]) {
        var r := Filter(s, p);
        var f := Filter(t, p);
        assert r == [s[0]] + f;
        forall i, j | 0 <= i < j < |r| ensures le(r[i], r[j]) {
          if i == 0 {
            assert r[j] == f[j - 1];
            var k :| 0 <= k < |t| && t[k] == f[j - 1];
            assert s[k + 1] == r[j];
          } else {
            assert r[i] == f[i - 1] && r[j] == f[j - 1];
          }
        }
      }
    }
  }

  /** The elements a throwing callback answers `true` for. */
  function Accepted<T>(p: T -> Result<bool>): T -> bool {
    x => p(x) == Success(true)
  }

  /** `s.filter(p)` with a callback that may throw: the first throw ends
      the call; otherwise exactly the elements `p` accepts, in order and
      with their multiplicity (the contract of `Filter`). */
  function FilterOrFail<T(!new)>(s: seq<T>, p: T -> Result<bool>): (r: Result<seq<T>>)
    ensures r.Failure? <==> exists i :: 0 <= i < |s| && p(s[i]).Failure?
    ensures r.Success? ==> r.value == Filter(s, Accepted(p))
  {
    if |s| == 0 then Success([])
    else match p(s[0])
      case Failure(e) => Failure(e)
      case Success(keep) =>
        match FilterOrFail(s[1..], p)
        case Failure(e) =>
          assert forall i :: 0 <= i < |s[1..]| ==> s[1..][i] == s[i + 1];
          Failure(e)
        case Success(rest) =>
          var kept := if keep then [s[0]] + rest else rest;
          assert kept == Filter(s, Accepted(p));
          Success(kept)
  }

  /** `s.map(f).filter(Boolean)` where `f` returns an object or `null`. */
  function Somes<T>(s: seq<Option<T>>): (r: seq<T>)
    ensures |r| <= |s|
    ensures forall i :: 0 <= i < |r| ==> Some(r[i]) in s
    ensures forall i :: 0 <= i < |s| && s[i].Some? ==> s[i].value in r
    ensures (forall i :: 0 <= i < |s| ==> s[i].Some?) ==> |r| == |s|
  {
    if |s| == 0 then []
    else if s[0].Some? then [s[0].value] + Somes(s[1..])
    else Somes(s[1..])
  }

  function Map<T, U>(s: seq<T>, f: T -> U): (r: seq<U>)
    ensures |r| == |s| && forall i :: 0 <= i < |s| ==> r[i] == f(s[i])
  {
    seq(|s|, i requires 0 <= i < |s| => f(s[i]))
  }

  /** When every entry is present, `Somes` keeps them all, in order. */
  lemma {:induction false} SomesAllPresent<T>(s: seq<Option<T>>)
    requires forall i :: 0 <= i < |s| ==> s[i].Some?
    ensures |Somes(s)| == |s| && forall i :: 0 <= i < |s| ==> Somes(s)[i] == s[i].value
  {
    if |s| > 0 {
      SomesAllPresent(s[1..]);
      assert forall i :: 1 <= i < |s| ==> s[i] == s[1..][i - 1];
    }
  }

  /** `s.map(f)` with a callback that may throw: the first throw ends the
      call. */
  function MapOrFail<T, U>(s: seq<T>, f: T -> Result<U>): (r: Result<seq<U>>)
    ensures r.Failure? <==> exists i :: 0 <= i < |s| && f(s[i]).Failure?
    ensures r.Success? ==> |r.value| == |s| && forall i :: 0 <= i < |s| ==> f(s[i]) == Success(r.value[i])
  {
    if |s| == 0 then Success([])
    else match f(s[0])
      case Failure(e) => Failure(e)
      case Success(x) =>
        match MapOrFail(s[1..], f)
        case Failure(e) =>
          assert forall i :: 0 <= i < |s[1..]| ==> s[1..][i] == s[i + 1];
          Failure(e)
        case Success(rest) =>
          assert forall i :: 1 <= i < |s| ==> s[i] == s[1..][i - 1];
          Success([x] + rest)
  }

  /** What a callback that did not throw produced; `None` otherwise. */
  function Produced<T, U>(f: T -> Result<Option<U>>): T -> Option<U> {
    x => if f(x).Success? then f(x).value else None
  }

  /** `s.map(f).filter(Boolean)` with a callback that may throw and
      returns an object or `null`: the first throw ends the call; otherwise
      the objects, in order. */
  function CollectOrFail<T, U>(s: seq<T>, f: T -> Result<Option<U>>): (r: Result<seq<U>>)
    ensures r.Failure? <==> exists i :: 0 <= i < |s| && f(s[i]).Failure?
    ensures r.Success? ==> r.value == Somes(Map(s, Produced(f)))
    ensures r.Success? ==> forall k :: 0 <= k < |r.value| ==>
              exists i :: 0 <= i < |s| && f(s[i]) == Success(Some(r.value[k]))
    ensures r.Success? ==> forall i :: 0 <= i < |s| && f(s[i]).Success? && f(s[i]).value.Some? ==>
              f(s[i]).value.value in r.value
  {
    if |s| == 0 then Success([])
    else match f(s[0])
      case Failure(e) => Failure(e)
      case Success(x) =>
        match CollectOrFail(s[1..], f)
        case Failure(e) =>
          assert forall i :: 0 <= i < |s[1..]| ==> s[1..][i] == s[i + 1];
          Failure(e)
        case Success(rest) =>
          assert forall i :: 1 <= i < |s| ==> s[i] == s[1..][i - 1];
          var r := (if x.Some? then [x.value] else []) + rest;
          SomesMapStep(s, Produced(f));
          CollectedMembers(s, f, r);
          Success(r)
  }

  lemma SomesMapStep<T, U>(s: seq<T>, g: T -> Option<U>)
    requires |s| > 0
    ensures Somes(Map(s, g)) == (if g(s[0]).Some? then [g(s[0]).value] else []) + Somes(Map(s[1..], g))
  {
    assert Map(s, g)[1..] == Map(s[1..], g);
  }

  /** What `Somes` keeps of the produced values are exactly the objects the
      callback returned. */
  lemma CollectedMembers<T, U>(s: seq<T>, f: T -> Result<Option<U>>, r: seq<U>)
    requires forall i :: 0 <= i < |s| ==> f(s[i]).Success?
    requires r == Somes(Map(s, Produced(f)))
    ensures forall k :: 0 <= k < |r| ==> exists i :: 0 <= i < |s| && f(s[i]) == Success(Some(r[k]))
    ensures forall i :: 0 <= i < |s| && f(s[i]).value.Some? ==> f(s[i]).value.value in r
  {
    var m := Map(s, Produced(f));
    forall k | 0 <= k < |r| ensures exists i :: 0 <= i < |s| && f(s[i]) == Success(Some(r[k])) {
      assert Some(r[k]) in m;
      var i :| 0 <= i < |m| && m[i] == Some(r[k]);
      assert f(s[i]) == Success(Some(r[k]));
    }
    forall i | 0 <= i < |s| && f(s[i]).value.Some? ensures f(s[i]).value.value in r {
      assert m[i] == f(s[i]).value;
    }
  }

  /** What a callback that did not throw produced, when `p` accepts it;
      `None` otherwise. */
  function KeepIf<T, U>(f: T -> Result<Option<U>>, p: U -> bool): T -> Option<U> {
    x => if f(x).Success? && f(x).value.Some? && p(f(x).value.value) then f(x).value else None
  }

  lemma FilterCons<T(!new)>(x: T, s: seq<T>, p: T -> bool)
    ensures Filter([x] + s, p) == if p(x) then [x] + Filter(s, p) else Filter(s, p)
  {
    assert ([x] + s)[0] == x && ([x] + s)[1..] == s;
  }

  /** Collecting and then filtering keeps, in order, what each element
      produced and `p` accepts. */
  lemma {:induction false} CollectThenFilter<T, U(!new)>(s: seq<T>, f: T -> Result<Option<U>>, p: U -> bool)
    ensures Filter(Somes(Map(s, Produced(f))), p) == Somes(Map(s, KeepIf(f, p)))
  {
    if |s| > 0 {
      var g, h := Produced(f), KeepIf(f, p);
      CollectThenFilter(s[1..], f, p);
      SomesMapStep(s, g);
      SomesMapStep(s, h);
      var rest := Somes(Map(s[1..], g));
      assert Filter(rest, p) == Somes(Map(s[1..], h));
      var o := g(s[0]);
      if o.Some? && p(o.value) {
        assert Somes(Map(s, g)) == [o.value] + rest;
        FilterCons(o.value, rest, p);
        assert h(s[0]) == o;
        assert Somes(Map(s, h)) == [o.value] + Somes(Map(s[1..], h));
      } else if o.Some? {
        assert Somes(Map(s, g)) == [o.value] + rest;
        FilterCons(o.value, rest, p);
        assert h(s[0]).None?;
        assert Somes(Map(s, h)) == Somes(Map(s[1..], h));
      } else {
        assert Somes(Map(s, g)) == rest;
        assert h(s[0]).None?;
        assert Somes(Map(s, h)) == Somes(Map(s[1..], h));
      }
    }
  }

  /** `s.map(f).filter(Boolean).filter(p)` with a callback that may throw:
      the first throw ends the call; otherwise the accepted objects, in
      order. */
  function CollectKept<T, U(!new)>(s: seq<T>, f: T -> Result<Option<U>>, p: U -> bool): (r: Result<seq<U>>)
    ensures r.Failure? <==> exists i :: 0 <= i < |s| && f(s[i]).Failure?
    ensures r.Success? ==> r.value == Somes(Map(s, KeepIf(f, p)))
    ensures r.Success? ==> forall k :: 0 <= k < |r.value| ==>
              p(r.value[k]) && exists i :: 0 <= i < |s| && f(s[i]) == Success(Some(r.value[k]))
    ensures r.Success? ==> forall i :: 0 <= i < |s| && f(s[i]).Success? && f(s[i]).value.Some? && p(f(s[i]).value.value) ==>
              f(s[i]).value.value in r.value
  {
    var present :- CollectOrFail(s, f);
    CollectThenFilter(s, f, p);
    KeptMembers(s, f, p);
    Success(Filter(present, p))
  }

  /** What `KeepIf` keeps are exactly the accepted products. */
  lemma KeptMembers<T, U>(s: seq<T>, f: T -> Result<Option<U>>, p: U -> bool)
    ensures var r := Somes(Map(s, KeepIf(f, p)));
      forall k :: 0 <= k < |r| ==> p(r[k]) && exists i :: 0 <= i < |s| && f(s[i]) == Success(Some(r[k]))
    ensures var r := Somes(Map(s, KeepIf(f, p)));
      forall i :: 0 <= i < |s| && f(s[i]).Success? && f(s[i]).value.Some? && p(f(s[i]).value.value) ==>
        f(s[i]).value.value in r
  {
    var m := Map(s, KeepIf(f, p));
    var r := Somes(m);
    forall k | 0 <= k < |r| ensures p(r[k]) && exists i :: 0 <= i < |s| && f(s[i]) == Success(Some(r[k])) {
      assert Some(r[k]) in m;
      var i :| 0 <= i < |m| && m[i] == Some(r[k]);
      assert f(s[i]) == Success(Some(r[k]));
    }
    forall i | 0 <= i < |s| && f(s[i]).Success? && f(s[i]).value.Some? && p(f(s[i]).value.value)
      ensures f(s[i]).value.value in r
    {
      assert m[i] == f(s[i]).value;
    }
  }

  /** Where the `i`-th kept value sits in `t`: at an index `m` such that
      every value present before `m` is kept before position `i`. */
  lemma {:induction false} SomesIndex<T>(t: seq<Option<T>>, i: nat) returns (m: nat)
    requires i < |Somes(t)|
    ensures m < |t| && t[m] == Some(Somes(t)[i])
    ensures forall j :: 0 <= j < m && t[j].Some? ==> exists k :: 0 <= k < i && Somes(t)[k] == t[j].value
  {
    if t[0].Some? && i == 0 {
      m := 0;
    } else {
      var m' := SomesIndex(t[1..], if t[0].Some? then i - 1 else i);
      m := m' + 1;
      SomesIndexStep(t, i, m');
    }
  }

  /** The step of the above: an index found in the tail, moved by one. */
  lemma SomesIndexStep<T>(t: seq<Option<T>>, i: nat, m': nat)
    requires |t| > 0 && i < |Somes(t)| && (t[0].Some? ==> i > 0)
    requires var i' := if t[0].Some? then i - 1 else i;
      && i' < |Somes(t[1..])| && m' < |t[1..]| && t[1..][m'] == Some(Somes(t[1..])[i'])
      && forall j :: 0 <= j < m' && t[1..][j].Some? ==> exists k :: 0 <= k < i' && Somes(t[1..])[k] == t[1..][j].value
    ensures t[m' + 1] == Some(Somes(t)[i])
    ensures forall j :: 0 <= j < m' + 1 && t[j].Some? ==> exists k :: 0 <= k < i && Somes(t)[k] == t[j].value
  {
    var tail := t[1..];
    var rest := Somes(tail);
    if t[0].Some? {
      var r := [t[0].value] + rest;
      assert Somes(t) == r;
      forall j | 0 <= j < m' + 1 && t[j].Some? ensures exists k :: 0 <= k < i && r[k] == t[j].value {
        if j == 0 {
          assert r[0] == t[j].value;
        } else {
          assert tail[j - 1] == t[j];
          var k' :| 0 <= k' < i - 1 && rest[k'] == tail[j - 1].value;
          assert r[k' + 1] == t[j].value;
        }
      }
    } else {
      assert Somes(t) == rest;
      forall j | 0 <= j < m' + 1 && t[j].Some? ensures exists k :: 0 <= k < i && rest[k] == t[j].value {
        assert tail[j - 1] == t[j];
      }
    }
  }

  /** `s.slice(0, n)`. */
  function Take<T>(s: seq<T>, n: nat): (r: seq<T>)
    ensures |r| == if |s| < n then |s| else n
    ensures forall i :: 0 <= i < |r| ==> r[i] == s[i]
  {
    if |s| <= n then s else s[..n]
  }

  // ------------------------------------------------------- deduplication

  /** No element before index `i` shares `s[i]`'s key. */
  ghost predicate FirstOfKey<T, K>(s: seq<T>, i: int, key: T -> K)
    requires 0 <= i < |s|
  {
    forall j :: 0 <= j < i ==> key(s[j]) != key(s[i])
  }

  ghost predicate DistinctKeys<T, K>(s: seq<T>, key: T -> K) {
    forall i, j :: 0 <= i < j < |s| ==> key(s[i]) != key(s[j])
  }

  /** Scans `s` keeping each element whose key is not yet in `seen`. */
  function DedupFrom<T, K(==)>(s: seq<T>, key: T -> K, seen: set<K>): (r: seq<T>)
    ensures DistinctKeys(r, key) && Subsequence(r, s)
    ensures forall j :: 0 <= j < |r| ==> key(r[j]) !in seen
  {
    if |s| == 0 then []
    else if key(s[0]) in seen then DedupFrom(s[1..], key, seen)
    else [s[0]] + DedupFrom(s[1..], key, seen + {key(s[0])})
  }

  /** Everything kept is the first element of its key. */
  lemma {:induction false} DedupFromFirsts<T, K>(s: seq<T>, key: T -> K, seen: set<K>, j: int)
    requires 0 <= j < |DedupFrom(s, key, seen)|
    ensures exists i :: 0 <= i < |s| && DedupFrom(s, key, seen)[j] == s[i] && FirstOfKey(s, i, key)
  {
    var r := DedupFrom(s, key, seen);
    var k := key(s[0]);
    var seen' := if k in seen then seen else seen + {k};
    var rest := DedupFrom(s[1..], key, seen');
    if k !in seen && j == 0 {
      assert FirstOfKey(s, 0, key);
    } else {
      var j' := if k in seen then j else j - 1;
      assert r[j] == rest[j'];
      DedupFromFirsts(s[1..], key, seen', j');
      var i :| 0 <= i < |s[1..]| && rest[j'] == s[1..][i] && FirstOfKey(s[1..], i, key);
      assert s[1..][i] == s[i + 1];
      assert key(rest[j']) !in seen';
      assert FirstOfKey(s, i + 1, key);
    }
  }

  /** The first element of every key not already seen is kept. */
  lemma {:induction false} DedupFromComplete<T, K>(s: seq<T>, key: T -> K, seen: set<K>)
    ensures forall i :: 0 <= i < |s| && key(s[i]) !in seen && FirstOfKey(s, i, key) ==>
      s[i] in DedupFrom(s, key, seen)
  {
    if |s| > 0 {
      var k := key(s[0]);
      var seen' := if k in seen then seen else seen + {k};
      DedupFromComplete(s[1..], key, seen');
      forall i | 1 <= i < |s| && key(s[i]) !in seen && FirstOfKey(s, i, key)
        ensures s[i] in DedupFrom(s[1..], key, seen')
      {
        assert key(s[i]) != k;
        assert s[1..][i - 1] == s[i];
        assert FirstOfKey(s[1..], i - 1, key);
      }
    }
  }

  /** `Array.from(map.values())` after `if (!seen.has(key(x))) seen.set(key(x), x)`
      for each `x`: the first element of every key, in first-seen order. */
  function DedupBy<T, K(==)>(s: seq<T>, key: T -> K): (r: seq<T>)
    ensures DistinctKeys(r, key) && Subsequence(r, s)
    ensures forall j :: 0 <= j < |r| ==> exists i :: 0 <= i < |s| && r[j] == s[i] && FirstOfKey(s, i, key)
    ensures forall i :: 0 <= i < |s| && FirstOfKey(s, i, key) ==> s[i] in r
  {
    forall j | 0 <= j < |DedupFrom(s, key, {})|
      ensures exists i :: 0 <= i < |s| && DedupFrom(s, key, {})[j] == s[i] && FirstOfKey(s, i, key)
    {
      DedupFromFirsts(s, key, {}, j);
    }
    DedupFromComplete(s, key, {});
    DedupFrom(s, key, {})
  }

  // ------------------------------------------------------------ sorting

  ghost predicate TotalPreorder<T(!new)>(le: (T, T) -> bool) {
    && (forall a, b :: le(a, b) || le(b, a))
    && (forall a, b, c :: le(a, b) && le(b, c) ==> le(a, c))
  }

  ghost predicate SortedBy<T>(s: seq<T>, le: (T, T) -> bool) {
    forall i, j :: 0 <= i < j < |s| ==> le(s[i], s[j])
  }

  /** `x` is no greater than anything in `s`. */
  ghost predicate Least<T>(x: T, s: seq<T>, le: (T, T) -> bool) {
    forall i :: 0 <= i < |s| ==> le(x, s[i])
  }

  /** Places `x` in front of the first element it is no greater than, so an
      element that came first stays ahead of its equals. */
  function Insert<T>(x: T, s: seq<T>, le: (T, T) -> bool): (r: seq<T>)
    ensures |r| == |s| + 1
    ensures multiset(r) == multiset(s) + multiset{x}
  {
    if |s| == 0 || le(x, s[0]) then [x] + s
    else
      assert s == [s[0]] + s[1..];
      [s[0]] + Insert(x, s[1..], le)
  }

  /** The stable sort of `Array.prototype.sort` with a consistent comparator:
      insertion sort from the back. */
  function SortBy<T>(s: seq<T>, le: (T, T) -> bool): (r: seq<T>)
    ensures |r| == |s|
    ensures multiset(r) == multiset(s)
  {
    if |s| == 0 then []
    else
      assert s == [s[0]] + s[1..];
      Insert(s[0], SortBy(s[1..], le), le)
  }

  lemma {:induction false} InsertSorted<T(!new)>(x: T, s: seq<T>, le: (T, T) -> bool)
    requires TotalPreorder(le) && SortedBy(s, le)
    ensures SortedBy(Insert(x, s, le), le)
  {
    if |s| > 0 && !le(x, s[0]) {
      var t := Insert(x, s[1..], le);
      InsertSorted(x, s[1..], le);
      assert le(s[0], x);
      forall k | 0 <= k < |t| ensures le(s[0], t[k]) {
        assert t[k] in multiset(t);
        assert t[k] in multiset(s[1..]) + multiset{x};
        if t[k] != x {
          assert t[k] in s[1..];
          var m :| 0 <= m < |s[1..]| && s[1..][m] == t[k];
          assert s[1..][m] == s[m + 1];
        }
      }
    } else if |s| > 0 {
      var r := [x] + s;
      forall i, j | 0 <= i < j < |r| ensures le(r[i], r[j]) {
        if i == 0 && j > 1 {
          assert le(s[0], s[j - 1]);
        }
      }
    }
  }

  /** The result is ordered by `le`. */
  lemma {:induction false} SortBySorted<T(!new)>(s: seq<T>, le: (T, T) -> bool)
    requires TotalPreorder(le)
    ensures SortedBy(SortBy(s, le), le)
  {
    if |s| > 0 {
      SortBySorted(s[1..], le);
      InsertSorted(s[0], SortBy(s[1..], le), le);
    }
  }

  /** Two orders that agree between `x` and every element of `s` insert
      `x` at the same place. */
  lemma {:induction false} InsertAgree<T>(x: T, s: seq<T>, le1: (T, T) -> bool, le2: (T, T) -> bool)
    requires forall i :: 0 <= i < |s| ==> le1(x, s[i]) == le2(x, s[i])
    ensures Insert(x, s, le1) == Insert(x, s, le2)
  {
    if |s| > 0 && !le1(x, s[0]) {
      InsertAgree(x, s[1..], le1, le2);
    }
  }

  /** The sort only consults the order between elements of the input. */
  lemma {:induction false} SortByAgree<T>(s: seq<T>, le1: (T, T) -> bool, le2: (T, T) -> bool)
    requires forall i, j :: 0 <= i < |s| && 0 <= j < |s| ==> le1(s[i], s[j]) == le2(s[i], s[j])
    ensures SortBy(s, le1) == SortBy(s, le2)
  {
    if |s| > 0 {
      SortByAgree(s[1..], le1, le2);
      var t := SortBy(s[1..], le1);
      forall k | 0 <= k < |t| ensures le1(s[0], t[k]) == le2(s[0], t[k]) {
        assert t[k] in multiset(s[1..]);
        var m :| 0 <= m < |s[1..]| && s[1..][m] == t[k];
        assert s[m + 1] == t[k];
      }
      InsertAgree(s[0], t, le1, le2);
    }
  }

  /** Two elements the order lets stand keep their order. */
  lemma TieKeepsPair<T>(a: T, b: T, le: (T, T) -> bool)
    requires le(a, b)
    ensures SortBy([a, b], le) == [a, b]
  {
    assert [a, b][1..] == [b];
    assert SortBy([b], le) == [b];
  }

  /** The elements of one key, as a filter. */
  function KeyIs<T>(key: T -> int, n: int): T -> bool {
    x => key(x) == n
  }

  /** Inserting `x` by an order that compares keys between `x` and `t`:
      among the elements of `x`'s key, `x` comes first. */
  lemma {:induction false} InsertKeepsKeyOrder<T(!new)>(x: T, t: seq<T>, le: (T, T) -> bool, key: T -> int, n: int)
    requires forall i :: 0 <= i < |t| ==> (le(x, t[i]) <==> key(x) <= key(t[i]))
    ensures Filter(Insert(x, t, le), KeyIs(key, n))
            == if key(x) == n then [x] + Filter(t, KeyIs(key, n)) else Filter(t, KeyIs(key, n))
  {
    var p := KeyIs(key, n);
    if |t| == 0 || le(x, t[0]) {
      var r := [x] + t;
      assert r[0] == x && r[1..] == t;
    } else {
      InsertKeepsKeyOrder(x, t[1..], le, key, n);
      var r := [t[0]] + Insert(x, t[1..], le);
      assert r[0] == t[0] && r[1..] == Insert(x, t[1..], le);
      assert key(t[0]) < key(x);
    }
  }

  /** Where an element of the sorted copy came from. */
  lemma SortedFrom<T>(s: seq<T>, le: (T, T) -> bool, k: nat) returns (m: nat)
    requires k < |s|
    ensures m < |s| && s[m] == SortBy(s, le)[k]
  {
    assert SortBy(s, le)[k] in multiset(s);
    m :| m < |s| && s[m] == SortBy(s, le)[k];
  }

  /** Stability: when the order compares keys, the elements of any one key
      come out in the order they went in. */
  lemma {:induction false} SortByKeepsKeyOrder<T(!new)>(s: seq<T>, le: (T, T) -> bool, key: T -> int, n: int)
    requires forall i, j :: 0 <= i < |s| && 0 <= j < |s| ==> (le(s[i], s[j]) <==> key(s[i]) <= key(s[j]))
    ensures Filter(SortBy(s, le), KeyIs(key, n)) == Filter(s, KeyIs(key, n))
  {
    if |s| > 0 {
      var tail := s[1..];
      SortByKeepsKeyOrder(tail, le, key, n);
      var t := SortBy(tail, le);
      forall k | 0 <= k < |t| ensures le(s[0], t[k]) <==> key(s[0]) <= key(t[k]) {
        var m := SortedFrom(tail, le, k);
        assert s[m + 1] == t[k];
      }
      InsertKeepsKeyOrder(s[0], t, le, key, n);
    }
  }

  /** The first element of a sorted sequence is least among all of them. */
  lemma SortedHeadLeast<T>(s: seq<T>, le: (T, T) -> bool, t: seq<T>)
    requires |s| > 0 && SortedBy(s, le) && multiset(s) == multiset(t)
    requires forall i :: 0 <= i < |s| ==> le(s[i], s[i])
    ensures Least(s[0], t, le)
  {
    forall i | 0 <= i < |t| ensures le(s[0], t[i]) {
      assert t[i] in multiset(t);
      assert t[i] in s;
      var k :| 0 <= k < |s| && s[k] == t[i];
    }
  }

  /** The head of the stable sort is the FIRST element that is least: ties
      are resolved in source order. */
  lemma {:induction false} SortHeadIsFirstLeast<T(!new)>(s: seq<T>, le: (T, T) -> bool)
    requires |s| > 0 && TotalPreorder(le)
    ensures exists i :: 0 <= i < |s| && SortBy(s, le)[0] == s[i] && Least(s[i], s, le)
                        && forall j :: 0 <= j < i ==> !Least(s[j], s, le)
  {
    if |s| == 1 {
      assert SortBy(s, le) == Insert(s[0], [], le) == [s[0]];
      assert le(s[0], s[0]);
      assert Least(s[0], s, le);
    } else if le(s[0], SortBy(s[1..], le)[0]) {
      HeadStaysFirst(s, le);
    } else {
      var t := s[1..];
      SortHeadIsFirstLeast(t, le);
      var i :| 0 <= i < |t| && SortBy(t, le)[0] == t[i] && Least(t[i], t, le)
               && forall j :: 0 <= j < i ==> !Least(t[j], t, le);
      var h := SortBy(t, le)[0];
      assert le(h, s[0]);
      assert t[i] == s[i + 1];
      SortKeepsTailHead(s, le);
      FirstLeastOfTail(s, le, i);
    }
  }

  /** An element greater than the head goes behind it. */
  lemma InsertBehind<T>(x: T, s: seq<T>, le: (T, T) -> bool)
    requires |s| > 0 && !le(x, s[0])
    ensures Insert(x, s, le)[0] == s[0]
  {
  }

  /** The first case of the above: the head is no greater than the head of
      the sorted rest, so it stays in front and is least. */
  lemma HeadStaysFirst<T(!new)>(s: seq<T>, le: (T, T) -> bool)
    requires |s| > 1 && TotalPreorder(le) && le(s[0], SortBy(s[1..], le)[0])
    ensures SortBy(s, le)[0] == s[0] && Least(s[0], s, le)
  {
    var t := s[1..];
    var sorted := SortBy(t, le);
    assert SortBy(s, le) == Insert(s[0], sorted, le);
    SortBySorted(t, le);
    forall i | 0 <= i < |sorted| ensures le(sorted[i], sorted[i]) {
      var x := sorted[i];
      assert le(x, x);
    }
    SortedHeadLeast(sorted, le, t);
    forall k | 0 <= k < |s| ensures le(s[0], s[k]) {
      if k == 0 {
        var x := s[0];
        assert le(x, x);
      } else {
        assert s[k] == t[k - 1];
        assert le(sorted[0], t[k - 1]);
      }
    }
  }

  /** The second case: the head is greater than the head of the sorted
      rest, so the sorted rest keeps its head in front. */
  lemma SortKeepsTailHead<T>(s: seq<T>, le: (T, T) -> bool)
    requires |s| > 1 && !le(s[0], SortBy(s[1..], le)[0])
    ensures SortBy(s, le)[0] == SortBy(s[1..], le)[0]
  {
    assert SortBy(s, le) == Insert(s[0], SortBy(s[1..], le), le);
    InsertBehind(s[0], SortBy(s[1..], le), le);
  }

  /** The first least element of the tail, strictly below the head, is the
      first least element of the whole. */
  lemma FirstLeastOfTail<T>(s: seq<T>, le: (T, T) -> bool, i: nat)
    requires |s| > 1 && i < |s| - 1 && le(s[i + 1], s[0]) && !le(s[0], s[i + 1])
    requires Least(s[1..][i], s[1..], le)
    requires forall j :: 0 <= j < i ==> !Least(s[1..][j], s[1..], le)
    ensures Least(s[i + 1], s, le)
    ensures forall j :: 0 <= j < i + 1 ==> !Least(s[j], s, le)
  {
    assert s[1..][i] == s[i + 1];
    LeastLifts(s, le, s[i + 1]);
    forall j | 1 <= j < i + 1 ensures !Least(s[j], s, le) {
      NotLeastLifts(s, le, j);
    }
  }

  /** Least in the tail and no greater than the head: least in all. */
  lemma LeastLifts<T>(s: seq<T>, le: (T, T) -> bool, x: T)
    requires |s| > 0 && Least(x, s[1..], le) && le(x, s[0])
    ensures Least(x, s, le)
  {
    forall k | 1 <= k < |s| ensures le(x, s[k]) {
      assert s[k] == s[1..][k - 1];
    }
  }

  /** Not least in the tail: not least in all. */
  lemma NotLeastLifts<T>(s: seq<T>, le: (T, T) -> bool, j: nat)
    requires 1 <= j < |s| && !Least(s[1..][j - 1], s[1..], le)
    ensures !Least(s[j], s, le)
  {
    var t := s[1..];
    var m :| 0 <= m < |t| && !le(t[j - 1], t[m]);
    assert t[m] == s[m + 1];
  }
}
