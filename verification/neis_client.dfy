/** The cached NEIS client (`src/services/neisClient.js`): the cache key,
    the reading of a dataset and the acceptance rule of `fetchNeis`. The
    HTTP request is a parameter and the cache a map from key to dataset. */
module NeisClient {
  import opened Wrappers
  import opened Text
  import opened Seqs
  import opened Js

  // ------------------------------------------------------------ objects

  /** A plain object as its entries, in insertion order. */
  type Params = seq<(string, Value)>

  predicate HasKey(obj: Params, key: string) {
    exists i :: 0 <= i < |obj| && obj[i].0 == key
  }

  /** Every key names one entry, as in any JavaScript object. */
  predicate UniqueKeys(obj: Params) {
    forall i, j :: 0 <= i < j < |obj| ==> obj[i].0 != obj[j].0
  }

  /** `obj[key]`: the value of the entry with that key. */
  function Lookup(obj: Params, key: string): (v: Value)
    ensures !HasKey(obj, key) ==> v == Undefined
    ensures |obj| > 0 ==> v == if obj[0].0 == key then obj[0].1 else Lookup(obj[1..], key)
  {
    if |obj| == 0 then Undefined
    else if obj[0].0 == key then obj[0].1
    else
      assert !HasKey(obj[1..], key) ==> !HasKey(obj, key) by {
        if HasKey(obj, key) {
          var i :| 0 <= i < |obj| && obj[i].0 == key;
          assert obj[1..][i - 1] == obj[i];
        }
      }
      Lookup(obj[1..], key)
  }

  lemma HasKeyFront(obj: Params, k: string)
    requires |obj| > 0
    ensures HasKey(obj, k) <==> obj[0].0 == k || HasKey(obj[1..], k)
  {
    if HasKey(obj, k) && obj[0].0 != k {
      var i :| 0 <= i < |obj| && obj[i].0 == k;
      assert obj[1..][i - 1] == obj[i];
    }
    if HasKey(obj[1..], k) {
      var i :| 0 <= i < |obj[1..]| && obj[1..][i].0 == k;
      assert obj[i + 1] == obj[1..][i];
    }
  }

  /** `obj[key] = value`: an existing entry keeps its place and takes the
      value, a new key goes to the end. */
  function Assign(obj: Params, key: string, value: Value): (r: Params)
    ensures |r| == if HasKey(obj, key) then |obj| else |obj| + 1
    ensures forall i :: 0 <= i < |obj| ==> r[i].0 == obj[i].0
    ensures !HasKey(obj, key) ==> r == obj + [(key, value)]
    ensures forall k :: Lookup(r, k) == if k == key then value else Lookup(obj, k)
  {
    if |obj| == 0 then [(key, value)]
    else if obj[0].0 == key then [(key, value)] + obj[1..]
    else
      HasKeyFront(obj, key);
      [obj[0]] + Assign(obj[1..], key, value)
  }

  /** An assignment keeps the keys unique. */
  lemma AssignUnique(obj: Params, key: string, value: Value)
    requires UniqueKeys(obj)
    ensures UniqueKeys(Assign(obj, key, value))
  {
    var r := Assign(obj, key, value);
    if !HasKey(obj, key) {
      forall i, j | 0 <= i < j < |r| ensures r[i].0 != r[j].0 {
        if j == |obj| {
          assert r[i] == obj[i];
        }
      }
    }
  }

  /** `{ ...base, ...over }`: the entries of `over` assigned in order. */
  function Spread(base: Params, over: Params): (r: Params)
    ensures |r| >= |base| && forall i :: 0 <= i < |base| ==> r[i].0 == base[i].0
    decreases |over|
  {
    if |over| == 0 then base
    else
      var first := Assign(base, over[0].0, over[0].1);
      var r := Spread(first, over[1..]);
      assert forall i :: 0 <= i < |base| ==> r[i].0 == first[i].0;
      r
  }

  /** After the spread, a key of `over` has its value there and every other
      key keeps the value it had in `base`; the keys stay unique. */
  lemma {:induction false} SpreadLookup(base: Params, over: Params, k: string)
    requires UniqueKeys(base) && UniqueKeys(over)
    ensures UniqueKeys(Spread(base, over))
    ensures Lookup(Spread(base, over), k) == if HasKey(over, k) then Lookup(over, k) else Lookup(base, k)
    decreases |over|
  {
    if |over| > 0 {
      var first := Assign(base, over[0].0, over[0].1);
      AssignUnique(base, over[0].0, over[0].1);
      assert UniqueKeys(over[1..]) by {
        forall i, j | 0 <= i < j < |over[1..]| ensures over[1..][i].0 != over[1..][j].0 {
          assert over[1..][i] == over[i + 1] && over[1..][j] == over[j + 1];
        }
      }
      SpreadLookup(first, over[1..], k);
      HasKeyFront(over, k);
      if k == over[0].0 {
        assert !HasKey(over[1..], k);
      }
    }
  }

  lemma SpreadAll(base: Params, over: Params)
    requires UniqueKeys(base) && UniqueKeys(over)
    ensures UniqueKeys(Spread(base, over))
    ensures forall k :: Lookup(Spread(base, over), k) == if HasKey(over, k) then Lookup(over, k) else Lookup(base, k)
  {
    forall k ensures Lookup(Spread(base, over), k) == if HasKey(over, k) then Lookup(over, k) else Lookup(base, k) {
      SpreadLookup(base, over, k);
    }
    SpreadLookup(base, over, "");
  }

  // ---------------------------------------------------------- cache key

  /** The characters `JSON.stringify` escapes inside a string. */
  predicate Escaped(c: char) {
    c == '"' || c == '\\' || c < ' '
  }

  function HexDigit(d: nat): char
    requires d < 16
  {
    if d < 10 then ('0' as int + d) as char else ('a' as int + d - 10) as char
  }

  /** The JSON escape of one character. */
  function EscapeChar(c: char): (r: string)
    ensures !Escaped(c) ==> r == [c]
    ensures Escaped(c) ==> |r| >= 2 && r[0] == '\\'
  {
    if c == '"' then "\\\""
    else if c == '\\' then "\\\\"
    else if c == '\U{0008}' then "\\b"
    else if c == '\t' then "\\t"
    else if c == '\n' then "\\n"
    else if c == '\U{000C}' then "\\f"
    else if c == '\r' then "\\r"
    else if c < ' ' then "\\u00" + [HexDigit(c as int / 16), HexDigit(c as int % 16)]
    else [c]
  }

  function Escape(s: string): (r: string)
    ensures (forall k :: 0 <= k < |s| ==> !Escaped(s[k])) ==> r == s
  {
    if |s| == 0 then "" else EscapeChar(s[0]) + Escape(s[1..])
  }

  /** `JSON.stringify` of a string. */
  function Quote(s: string): string {
    "\"" + Escape(s) + "\""
  }

  /** `JSON.stringify` of a parameter value; arrays and objects are written
      by `compound`. Inside an object an `undefined` value is left out
      (see `Written`), so its "null" here is never used. */
  function JsonValue(v: Value, compound: Value -> string): string {
    match v
    case Undefined => "null"
    case Null => "null"
    case Bool(b) => if b then "true" else "false"
    case Num(n) => IntToString(n)
    case Str(s) => Quote(s)
    case _ => compound(v)
  }

  /** The entries `JSON.stringify` writes: `undefined` values are skipped. */
  predicate Written(e: (string, Value)) {
    !e.1.Undefined?
  }

  predicate KeyLe(a: (string, Value), b: (string, Value)) {
    StrLe(a.0, b.0)
  }

  lemma KeyLeIsPreorder()
    ensures TotalPreorder(KeyLe)
  {
    forall a: (string, Value), b: (string, Value) ensures KeyLe(a, b) || KeyLe(b, a) {
      StrLeTotal(a.0, b.0);
    }
    forall a: (string, Value), b: (string, Value), c: (string, Value) | KeyLe(a, b) && KeyLe(b, c)
      ensures KeyLe(a, c)
    {
      StrLeTransitive(a.0, b.0, c.0);
    }
  }

  /** `Object.keys(params).sort()` rebuilt into an object: the entries in
      key order. */
  function Normalized(params: Params): (r: Params)
    ensures multiset(r) == multiset(params)
    ensures SortedBy(r, KeyLe)
  {
    KeyLeIsPreorder();
    SortBySorted(params, KeyLe);
    SortBy(params, KeyLe)
  }

  function JsonMember(compound: Value -> string, e: (string, Value)): string {
    Quote(e.0) + ":" + JsonValue(e.1, compound)
  }

  /** `buildCacheKey`: the endpoint, a colon and the JSON text of the
      parameters with their keys sorted. */
  function CacheKey(endpoint: string, params: Params, compound: Value -> string): (key: string)
    ensures |key| >= |endpoint| + 3 && key[..|endpoint| + 2] == endpoint + ":{" && key[|key| - 1] == '}'
  {
    var written := Filter(Normalized(params), Written);
    var inner := Join(Map(written, (e: (string, Value)) => JsonMember(compound, e)), ",");
    Braced(endpoint, inner);
    endpoint + ":{" + inner + "}"
  }

  /** The endpoint, `:{`, the members and `}`, read back. */
  lemma Braced(endpoint: string, inner: string)
    ensures var key := endpoint + ":{" + inner + "}";
      |key| >= |endpoint| + 3 && key[..|endpoint| + 2] == endpoint + ":{" && key[|key| - 1] == '}'
  {
  }

  /** Each key of the entries names one value. */
  ghost predicate KeyFunctional(s: Params) {
    forall a, b :: a in s && b in s && a.0 == b.0 ==> a == b
  }

  lemma UniqueIsFunctional(s: Params)
    requires UniqueKeys(s)
    ensures KeyFunctional(s)
  {
    forall a, b | a in s && b in s && a.0 == b.0 ensures a == b {
      var i :| 0 <= i < |s| && s[i] == a;
      var j :| 0 <= j < |s| && s[j] == b;
      assert i == j;
    }
  }

  /** Two key-sorted arrangements of the same entries start alike. */
  lemma SortedHeads(a: Params, b: Params)
    requires |a| > 0 && SortedBy(a, KeyLe) && SortedBy(b, KeyLe)
    requires multiset(a) == multiset(b) && KeyFunctional(a)
    ensures |b| > 0 && a[0] == b[0]
  {
    assert a[0] in multiset(b);
    var i :| 0 <= i < |b| && b[i] == a[0];
    assert b[0] in multiset(a);
    var j :| 0 <= j < |a| && a[j] == b[0];
    StrLeTotal(a[0].0, a[0].0);
    StrLeTotal(b[0].0, b[0].0);
    assert KeyLe(b[0], a[0]) by {
      if i > 0 { assert KeyLe(b[0], b[i]); }
    }
    assert KeyLe(a[0], b[0]) by {
      if j > 0 { assert KeyLe(a[0], a[j]); }
    }
    StrLeAntisymmetric(a[0].0, b[0].0);
  }

  /** A sorted arrangement stays sorted without its head. */
  lemma SortedTail(a: Params)
    requires |a| > 0 && SortedBy(a, KeyLe)
    ensures SortedBy(a[1..], KeyLe)
    ensures multiset(a[1..]) == multiset(a) - multiset{a[0]}
  {
    assert a == [a[0]] + a[1..];
    forall i, j | 0 <= i < j < |a[1..]| ensures KeyLe(a[1..][i], a[1..][j]) {
      assert a[1..][i] == a[i + 1] && a[1..][j] == a[j + 1];
    }
  }

  lemma FunctionalTail(a: Params)
    requires |a| > 0 && KeyFunctional(a)
    ensures KeyFunctional(a[1..])
  {
    forall x, y | x in a[1..] && y in a[1..] && x.0 == y.0 ensures x == y {
      assert x in a && y in a;
    }
  }

  /** Two key-sorted arrangements of the same entries are the same. */
  lemma {:induction false} SortedUnique(a: Params, b: Params)
    requires SortedBy(a, KeyLe) && SortedBy(b, KeyLe)
    requires multiset(a) == multiset(b) && KeyFunctional(a)
    ensures a == b
    decreases |a|
  {
    if |a| > 0 {
      SortedHeads(a, b);
      SortedTail(a);
      SortedTail(b);
      FunctionalTail(a);
      SortedUnique(a[1..], b[1..]);
      assert a == [a[0]] + a[1..] && b == [b[0]] + b[1..];
    } else {
      assert multiset(b) == multiset{};
    }
  }

  /** The key does not depend on the order in which the parameters were
      written: the same entries in any order give the same key. */
  lemma CacheKeyIgnoresOrder(endpoint: string, p: Params, q: Params, compound: Value -> string)
    requires UniqueKeys(p) && multiset(p) == multiset(q)
    ensures CacheKey(endpoint, p, compound) == CacheKey(endpoint, q, compound)
  {
    UniqueIsFunctional(p);
    var a, b := Normalized(p), Normalized(q);
    assert KeyFunctional(a) by {
      forall x, y | x in a && y in a && x.0 == y.0 ensures x == y {
        assert x in multiset(a) && y in multiset(a);
        assert x in p && y in p;
      }
    }
    SortedUnique(a, b);
  }

  /** A parameter whose value is `undefined` does not enter the key: the
      key is the one of the parameters without it. */
  lemma CacheKeyDropsUndefined(endpoint: string, p: Params, compound: Value -> string)
    requires UniqueKeys(p)
    ensures CacheKey(endpoint, p, compound) == CacheKey(endpoint, Filter(p, Written), compound)
  {
    WrittenAfterSort(p);
  }

  /** Sorting and then leaving out `undefined` values gives the sorted
      written entries. */
  lemma WrittenAfterSort(p: Params)
    requires UniqueKeys(p)
    ensures Filter(Normalized(p), Written) == Filter(Normalized(Filter(p, Written)), Written)
  {
    var a := Filter(Normalized(p), Written);
    var n := Normalized(Filter(p, Written));
    AllWritten(n, Filter(p, Written));
    KeyLeIsPreorder();
    FilterSorted(Normalized(p), Written, KeyLe);
    SameWritten(p);
    WrittenFunctional(p);
    SortedUnique(a, n);
  }

  /** An arrangement of written entries is kept whole by the filter. */
  lemma AllWritten(n: Params, q: Params)
    requires multiset(n) == multiset(q) && forall i :: 0 <= i < |q| ==> Written(q[i])
    ensures Filter(n, Written) == n
  {
    forall i | 0 <= i < |n| ensures Written(n[i]) {
      assert n[i] in multiset(n);
    }
    FilterAll(n, Written);
  }

  /** Both sides hold the written entries, each as often as in `p`. */
  lemma SameWritten(p: Params)
    ensures multiset(Filter(Normalized(p), Written)) == multiset(Normalized(Filter(p, Written)))
  {
    var a := Filter(Normalized(p), Written);
    var n := Normalized(Filter(p, Written));
    FilterCounts(Normalized(p), Written);
    FilterCounts(p, Written);
    forall x ensures multiset(a)[x] == multiset(n)[x] {
      assert multiset(Normalized(p))[x] == multiset(p)[x];
    }
  }

  lemma WrittenFunctional(p: Params)
    requires UniqueKeys(p)
    ensures KeyFunctional(Filter(Normalized(p), Written))
  {
    var a := Filter(Normalized(p), Written);
    UniqueIsFunctional(p);
    forall x, y | x in a && y in a && x.0 == y.0 ensures x == y {
      assert x in multiset(Normalized(p)) && y in multiset(Normalized(p));
      assert x in p && y in p;
    }
  }

  /** Two endpoints share no cache entry: the colon ends the endpoint part
      of the key. */
  lemma CacheKeySeparatesEndpoints(e1: string, e2: string, p: Params, q: Params, compound: Value -> string)
    requires ':' !in e1 && ':' !in e2 && e1 != e2
    ensures CacheKey(e1, p, compound) != CacheKey(e2, q, compound)
  {
    var k1, k2 := CacheKey(e1, p, compound), CacheKey(e2, q, compound);
    assert k1[..|e1|] == e1 && k1[|e1|] == ':' by { assert k1[..|e1| + 2][..|e1|] == k1[..|e1|]; }
    assert k2[..|e2|] == e2 && k2[|e2|] == ':' by { assert k2[..|e2| + 2][..|e2|] == k2[..|e2|]; }
    if |e1| < |e2| {
      assert k2[|e1|] == e2[|e1|];
    } else if |e2| < |e1| {
      assert k1[|e2|] == e1[|e2|];
    }
  }

  // ------------------------------------------------------------ datasets

  /** What `parseDataset` returns. */
  datatype Parsed = Parsed(rows: Value, code: Value, message: Value)

  /** The answer for a dataset that is not an array. */
  const NoData := Parsed(Arr([]), Str("INFO-200"), Str("데이터가 없습니다."))

  /** The start of the scan over an array dataset. */
  const Normal := Parsed(Arr([]), Str("INFO-000"), Str("정상 처리되었습니다."))

  /** `items.find((h) => h.RESULT)`: reading `RESULT` of a `null` entry
      throws, unless an earlier entry was found; `undefined` when none. */
  function FindResult(items: seq<Value>): (r: Result<Value>)
    ensures r == Success(Undefined) <==>
              forall i :: 0 <= i < |items| ==> !Nullish(items[i]) && !Truthy(Get(items[i], "RESULT"))
    ensures r.Success? && r.value != Undefined ==>
              exists i :: 0 <= i < |items| && r.value == items[i] && Truthy(Get(items[i], "RESULT"))
    ensures r.Failure? ==>
              exists i :: 0 <= i < |items| && Nullish(items[i])
                          && forall j :: 0 <= j < i ==> !Truthy(Get(items[j], "RESULT"))
  {
    if |items| == 0 then Success(Undefined)
    else if Nullish(items[0]) then Failure("TypeError: Cannot read properties of " + ToStr(items[0]))
    else if Truthy(Get(items[0], "RESULT")) then Success(items[0])
    else
      var r := FindResult(items[1..]);
      assert forall i :: 1 <= i < |items| ==> items[i] == items[1..][i - 1];
      r
  }

  /** The `RESULT` an item of the dataset reports (`undefined` when it has
      no head); a truthy head that is not an array has no `find` and throws. */
  function ItemResult(item: Value): Result<Value> {
    var head := Get(item, "head");
    if !Truthy(head) then Success(Undefined)
    else if !head.Arr? then Failure("TypeError: item.head.find is not a function")
    else
      var found :- FindResult(head.items);
      Success(Get(found, "RESULT"))
  }

  /** The `RESULT` of an item that does not throw. */
  function Reported(item: Value): Value {
    match ItemResult(item)
    case Success(v) => v
    case Failure(_) => Undefined
  }

  /** One turn of the `forEach`: a truthy `RESULT` sets code and message,
      a truthy `row` replaces the rows. */
  function Step(acc: Parsed, item: Value): (r: Result<Parsed>)
    ensures r.Failure? <==> ItemResult(item).Failure?
  {
    var result :- ItemResult(item);
    var withResult := if Truthy(result) then acc.(code := Get(result, "CODE"), message := Get(result, "MESSAGE")) else acc;
    Success(if Truthy(Get(item, "row")) then withResult.(rows := Get(item, "row")) else withResult)
  }

  /** The `forEach` over the items, in order; the first throw ends it. */
  function Scan(items: seq<Value>): (r: Result<Parsed>)
    ensures r.Failure? <==> exists i :: 0 <= i < |items| && ItemResult(items[i]).Failure?
  {
    if |items| == 0 then Success(Normal)
    else
      var n := |items|;
      assert forall i :: 0 <= i < n - 1 ==> items[..n - 1][i] == items[i];
      var acc :- Scan(items[..n - 1]);
      Step(acc, items[n - 1])
  }

  /** `parseDataset`. */
  function ParseDataset(dataset: Value): (r: Result<Parsed>)
    ensures !dataset.Arr? ==> r == Success(NoData)
    ensures dataset.Arr? ==>
              (r.Failure? <==> exists i :: 0 <= i < |dataset.items| && ItemResult(dataset.items[i]).Failure?)
  {
    if !dataset.Arr? then Success(NoData) else Scan(dataset.items)
  }

  predicate SetsResult(item: Value) {
    Truthy(Reported(item))
  }

  predicate SetsRows(item: Value) {
    Truthy(Get(item, "row"))
  }

  /** What one turn does to the accumulated dataset. */
  lemma StepEffect(acc: Parsed, item: Value)
    requires ItemResult(item).Success?
    ensures Step(acc, item).Success?
    ensures var p := Step(acc, item).value;
      && (SetsResult(item) ==> p.code == Get(Reported(item), "CODE") && p.message == Get(Reported(item), "MESSAGE"))
      && (!SetsResult(item) ==> p.code == acc.code && p.message == acc.message)
      && (SetsRows(item) ==> p.rows == Get(item, "row"))
      && (!SetsRows(item) ==> p.rows == acc.rows)
  {
  }

  /** The scan of all but the last item, then the last. */
  lemma ScanLast(items: seq<Value>)
    requires |items| > 0 && forall i :: 0 <= i < |items| ==> ItemResult(items[i]).Success?
    ensures Scan(items).Success? && Scan(items[..|items| - 1]).Success?
    ensures Scan(items) == Step(Scan(items[..|items| - 1]).value, items[|items| - 1])
  {
    var n := |items|;
    assert forall i :: 0 <= i < n - 1 ==> items[..n - 1][i] == items[i];
  }

  /** The index of the last item satisfying `p`, scanning from the end. */
  function LastIndex(items: seq<Value>, p: Value -> bool): (r: Option<nat>)
    ensures r.None? <==> forall i :: 0 <= i < |items| ==> !p(items[i])
    ensures r.Some? ==> r.value < |items| && p(items[r.value])
                        && forall j :: r.value < j < |items| ==> !p(items[j])
  {
    if |items| == 0 then None
    else if p(items[|items| - 1]) then Some(|items| - 1)
    else
      var r := LastIndex(items[..|items| - 1], p);
      assert forall i :: 0 <= i < |items| - 1 ==> items[..|items| - 1][i] == items[i];
      r
  }

  /** The last item that reports a `RESULT` decides code and message; the
      defaults stand when none does. */
  lemma {:induction false} LastResultWins(items: seq<Value>)
    requires forall i :: 0 <= i < |items| ==> ItemResult(items[i]).Success?
    ensures Scan(items).Success?
    ensures var p, last := Scan(items).value, LastIndex(items, SetsResult);
      && (last.None? ==> p.code == Str("INFO-000") && p.message == Str("정상 처리되었습니다."))
      && (last.Some? ==> p.code == Get(Reported(items[last.value]), "CODE")
                         && p.message == Get(Reported(items[last.value]), "MESSAGE"))
  {
    if |items| > 0 {
      var n := |items|;
      var init := items[..n - 1];
      ScanLast(items);
      assert forall i :: 0 <= i < n - 1 ==> init[i] == items[i];
      LastResultWins(init);
      StepEffect(Scan(init).value, items[n - 1]);
    }
  }

  /** The last item with rows decides the rows; none when no item has any. */
  lemma {:induction false} LastRowsWin(items: seq<Value>)
    requires forall i :: 0 <= i < |items| ==> ItemResult(items[i]).Success?
    ensures Scan(items).Success?
    ensures var p, last := Scan(items).value, LastIndex(items, SetsRows);
      && (last.None? ==> p.rows == Arr([]))
      && (last.Some? ==> p.rows == Get(items[last.value], "row"))
  {
    if |items| > 0 {
      var n := |items|;
      var init := items[..n - 1];
      ScanLast(items);
      assert forall i :: 0 <= i < n - 1 ==> init[i] == items[i];
      LastRowsWin(init);
      StepEffect(Scan(init).value, items[n - 1]);
    }
  }

  /** An item whose head reports `code`. */
  function CodeItem(code: string): Value {
    Obj(map["head" := Arr([Obj(map["RESULT" := Obj(map["CODE" := Str(code)])])])])
  }

  /** A code item reports its code, no message and no rows. */
  lemma CodeItemReports(code: string)
    ensures ItemResult(CodeItem(code)).Success?
    ensures Get(Reported(CodeItem(code)), "CODE") == Str(code)
    ensures Get(Reported(CodeItem(code)), "MESSAGE") == Undefined
    ensures code != "" ==> SetsResult(CodeItem(code))
    ensures !SetsRows(CodeItem(code))
  {
  }

  /** A later code overrides an earlier one: after a success code, an
      error code is what is reported. */
  lemma LaterResultOverrides(first: string, code: string)
    requires code != ""
    ensures ParseDataset(Arr([CodeItem(first), CodeItem(code)])) ==
              Success(Parsed(Arr([]), Str(code), Undefined))
  {
    CodeItemReports(first);
    CodeItemReports(code);
    LastReportWins(CodeItem(first), CodeItem(code));
  }

  /** Of two items without rows, the second one's report is the result. */
  lemma LastReportWins(a: Value, b: Value)
    requires ItemResult(a).Success? && ItemResult(b).Success?
    requires !SetsRows(a) && !SetsRows(b) && SetsResult(b)
    ensures ParseDataset(Arr([a, b])) ==
              Success(Parsed(Normal.rows, Get(Reported(b), "CODE"), Get(Reported(b), "MESSAGE")))
  {
    var items := [a, b];
    ScanLast(items);
    ScanLast(items[..1]);
    assert items[..1][..0] == [];
    StepEffect(Normal, items[0]);
    StepEffect(Scan(items[..1]).value, items[1]);
  }

  // ------------------------------------------------------------- fetching

  /** `["INFO-000", "INFO-200"].includes(code)`, or no code at all. */
  predicate Accepted(code: Value) {
    !Truthy(code) || code == Str("INFO-000") || code == Str("INFO-200")
  }

  /** The fixed parameters; `pIndex` and `pSize` are text. */
  function Defaults(apiKey: Value): Params {
    [("KEY", apiKey), ("Type", Str("json")), ("pIndex", Str("1")), ("pSize", Str("100"))]
  }

  /** The parameters of the request: the defaults, then the caller's. */
  function FinalParams(apiKey: Value, params: Params): (r: Params)
    requires UniqueKeys(params)
    ensures UniqueKeys(r)
    ensures forall k :: Lookup(r, k) == if HasKey(params, k) then Lookup(params, k) else Lookup(Defaults(apiKey), k)
    ensures |r| >= 4 && r[0].0 == "KEY" && r[1].0 == "Type" && r[2].0 == "pIndex" && r[3].0 == "pSize"
  {
    SpreadAll(Defaults(apiKey), params);
    Spread(Defaults(apiKey), params)
  }

  /** The text of the error `fetchNeis` throws for a rejected code. */
  function Rejection(endpoint: string, p: Parsed): string {
    endpoint + " 호출 실패: " + ToStr(p.code) + " " + ToStr(Or(p.message, Str("NEIS API 오류가 발생했습니다.")))
  }

  const MissingKey := "NEIS API Key가 설정되어 있지 않습니다."

  /** The environment of `fetchNeis`: the HTTP GET (endpoint and final
      parameters to the response body, or the error of a failed request)
      and the JSON text of array and object parameter values. */
  datatype Host = Host(get: (string, Params) -> Result<Value>, compound: Value -> string)

  /** `fetchNeis`: a dataset and the cache after the call. */
  function FetchNeis(host: Host, apiKey: Value, endpoint: string, params: Params,
                     cache: map<string, Parsed>): (r: Result<(Parsed, map<string, Parsed>)>)
    requires UniqueKeys(params)
    ensures !Truthy(apiKey) ==> r == Failure(MissingKey)
    ensures var key := CacheKey(endpoint, FinalParams(apiKey, params), host.compound);
      && (Truthy(apiKey) && key in cache ==> r == Success((cache[key], cache)))
      && (r.Success? && key !in cache ==> Accepted(r.value.0.code) && r.value.1 == cache[key := r.value.0])
    ensures r.Success? ==> r.value.1.Keys >= cache.Keys
  {
    if !Truthy(apiKey) then Failure(MissingKey)
    else
      var final := FinalParams(apiKey, params);
      var key := CacheKey(endpoint, final, host.compound);
      if key in cache then Success((cache[key], cache))
      else
        var data :- host.get(endpoint, final);
        var parsed :- ParseDataset(Get(data, endpoint));
        if !Accepted(parsed.code) then Failure(Rejection(endpoint, parsed))
        else Success((parsed, cache[key := parsed]))
  }

  /** A cached answer is served without asking the network: any two
      transports give the same result. */
  lemma HitSkipsFetch(get1: (string, Params) -> Result<Value>, get2: (string, Params) -> Result<Value>,
                      compound: Value -> string, apiKey: Value, endpoint: string, params: Params,
                      cache: map<string, Parsed>)
    requires UniqueKeys(params)
    requires CacheKey(endpoint, FinalParams(apiKey, params), compound) in cache
    ensures FetchNeis(Host(get1, compound), apiKey, endpoint, params, cache) ==
            FetchNeis(Host(get2, compound), apiKey, endpoint, params, cache)
  {
  }

  /** A miss: the answer is the parsed dataset of the response when its
      code is accepted, and only then is it stored; any other code throws
      with the endpoint, the code and the message. */
  lemma MissOutcome(host: Host, apiKey: Value, endpoint: string, params: Params, cache: map<string, Parsed>)
    requires UniqueKeys(params) && Truthy(apiKey)
    requires CacheKey(endpoint, FinalParams(apiKey, params), host.compound) !in cache
    requires host.get(endpoint, FinalParams(apiKey, params)).Success?
    ensures var final := FinalParams(apiKey, params);
      var parsed := ParseDataset(Get(host.get(endpoint, final).value, endpoint));
      var r := FetchNeis(host, apiKey, endpoint, params, cache);
      && (parsed.Failure? ==> r == Failure(parsed.error))
      && (parsed.Success? && !Accepted(parsed.value.code) ==> r == Failure(Rejection(endpoint, parsed.value)))
      && (parsed.Success? && Accepted(parsed.value.code) ==>
            r == Success((parsed.value, cache[CacheKey(endpoint, final, host.compound) := parsed.value])))
  {
  }

  /** A missing dataset is "no data", which is accepted and cached. */
  lemma NoDataAccepted(host: Host, apiKey: Value, endpoint: string, params: Params, cache: map<string, Parsed>)
    requires UniqueKeys(params) && Truthy(apiKey)
    requires CacheKey(endpoint, FinalParams(apiKey, params), host.compound) !in cache
    requires host.get(endpoint, FinalParams(apiKey, params)) == Success(Obj(map[]))
    ensures FetchNeis(host, apiKey, endpoint, params, cache).Success?
    ensures FetchNeis(host, apiKey, endpoint, params, cache).value.0 == NoData
  {
  }
}
