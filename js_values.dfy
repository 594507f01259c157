/**
 * The JSON values the backend sends and the JavaScript operations the
 * results page applies to them: truthiness, property access, Object.keys,
 * Object.values and typeof.
 */
module JsValues {
  import opened Wrappers
  import opened Dict
  import opened Seqs
  import opened Strings
  import opened Sorting

  /**
   * An object's table holds its fields in insertion order; Object.keys
   * reorders them (OwnKeys).
   */
  datatype JsValue =
    | JNull
    | JBool(b: bool)
    | JNum(n: real)
    | JStr(s: string)
    | JList(items: seq<JsValue>)
    | JObject(fields: Table<string, JsValue>)

  /** What the page's code can raise: reading a property of null. */
  datatype JsError = TypeError

  /** undefined is None. */
  predicate Truthy(v: Option<JsValue>) {
    match v
    case None => false
    case Some(JNull) => false
    case Some(JBool(b)) => b
    case Some(JNum(n)) => n != 0.0
    case Some(JStr(s)) => s != []
    case Some(_) => true
  }

  /** a || b. */
  function Or(a: Option<JsValue>, b: Option<JsValue>): (r: Option<JsValue>)
    ensures Truthy(a) ==> r == a
    ensures !Truthy(a) ==> r == b
  {
    if Truthy(a) then a else b
  }

  /** v[key] on an object; undefined on anything else. */
  function Prop(v: Option<JsValue>, key: string): (r: Option<JsValue>)
    ensures r.Some? ==> v.Some? && v.value.JObject? && key in v.value.fields.entries
  {
    if v.Some? && v.value.JObject? && key in v.value.fields.entries
    then Some(v.value.fields.entries[key]) else None
  }

  /** v[i] on an array; undefined past its end and on anything else. */
  function Index(v: Option<JsValue>, i: nat): (r: Option<JsValue>)
    ensures r.Some? <==> v.Some? && v.value.JList? && i < |v.value.items|
  {
    if v.Some? && v.value.JList? && i < |v.value.items| then Some(v.value.items[i]) else None
  }

  /**
   * An array index used as a property name: the decimal rendering, without
   * sign or leading zero, of a number below 2^32 - 1 (sections 6.1.7 and
   * 10.4.2 of ECMA-262).
   */
  predicate IsIndexKey(k: string) {
    k != [] && AllDigits(k) && ParseDigits(k) < 0xFFFF_FFFF && NatToString(ParseDigits(k)) == k
  }

  /** The number an index key names; 0 for any other key. */
  function KeyIndex(k: string): nat {
    if AllDigits(k) then ParseDigits(k) else 0
  }

  predicate IndexLe(a: string, b: string) {
    KeyIndex(a) <= KeyIndex(b)
  }

  predicate IsNamedKey(k: string) {
    !IsIndexKey(k)
  }

  lemma IndexLeTotal()
    ensures TotalPreorder(IndexLe)
  {
  }

  /**
   * The own keys of an object in the order Object.keys lists them: the
   * index keys in ascending numeric order, then the other keys in the order
   * they were inserted (section 10.1.11.1 of ECMA-262).
   */
  function OwnKeys(t: Table<string, JsValue>): seq<string> {
    IndexLeTotal();
    SortBy(Filter(t.keys, IsIndexKey), IndexLe) + Filter(t.keys, IsNamedKey)
  }

  /** "0", "1", ..., the index keys of an array or a string of length n. */
  function IndexKeys(n: nat): (ks: seq<string>)
    ensures |ks| == n && forall i :: 0 <= i < n ==> ks[i] == NatToString(i)
  {
    seq(n, i requires 0 <= i < n => NatToString(i))
  }

  /** Object.keys(v || {}): an object's own keys, an array's or a string's indices, nothing for the rest. */
  function Keys(v: Option<JsValue>): seq<string> {
    if !Truthy(v) then []
    else match v.value
      case JObject(t) => OwnKeys(t)
      case JList(items) => IndexKeys(|items|)
      case JStr(s) => IndexKeys(|s|)
      case _ => []
  }

  /**
   * v[key] on a value that is not null, undefined being None: an object's
   * field, an array's element or a string's character at an index key, and
   * the length of an array or a string.
   */
  function Member(v: JsValue, key: string): (r: Option<JsValue>)
    ensures v.JObject? ==> (r.Some? <==> key in v.fields.entries)
    ensures v.JNum? || v.JBool? || v.JNull? ==> r.None?
  {
    match v
    case JObject(t) => if key in t.entries then Some(t.entries[key]) else None
    case JList(items) =>
      if IsIndexKey(key) && ParseDigits(key) < |items| then Some(items[ParseDigits(key)])
      else if key == "length" then Some(JNum(|items| as real))
      else None
    case JStr(s) =>
      if IsIndexKey(key) && ParseDigits(key) < |s| then Some(JStr([s[ParseDigits(key)]]))
      else if key == "length" then Some(JNum(|s| as real))
      else None
    case _ => None
  }

  /**
   * The first entry of Object.values(v || {}): the value under the first
   * key Object.keys lists; numbers and booleans have none.
   */
  function FirstValue(v: Option<JsValue>): Option<JsValue> {
    if !Truthy(v) then None
    else match v.value
      case JObject(t) =>
        var ks := OwnKeys(t);
        if ks != [] && ks[0] in t.entries then Some(t.entries[ks[0]]) else None
      case JList(items) => if items == [] then None else Some(items[0])
      case JStr(s) => Some(JStr([s[0]]))
      case _ => None
  }

  /** The numbers among the items, in order (`filter(n => typeof n === 'number')`). */
  function Numbers(items: seq<JsValue>): (ns: seq<real>)
    ensures |ns| <= |items|
    ensures forall x :: x in ns <==> JNum(x) in items
  {
    if items == [] then []
    else
      assert forall v :: v in items <==> v == items[0] || v in items[1..];
      (if items[0].JNum? then [items[0].n] else []) + Numbers(items[1..])
  }

  // ---------------------------------------------------------------------------
  // Properties of the key order

  /** Rendering an index and reading it back gives the index. */
  lemma IndexKeyOf(i: nat)
    requires i < 0xFFFF_FFFF
    ensures IsIndexKey(NatToString(i)) && KeyIndex(NatToString(i)) == i
  {
    ParseNatToString(i);
  }

  /** Two index keys naming the same number are the same key. */
  lemma IndexKeyInjective(a: string, b: string)
    requires IsIndexKey(a) && IsIndexKey(b) && KeyIndex(a) == KeyIndex(b)
    ensures a == b
  {
  }

  /**
   * Object.keys lists every own key as often as the table does; the index
   * keys come first, in ascending order of the numbers they name, and the
   * others follow in insertion order.
   */
  lemma OwnKeysOrder(t: Table<string, JsValue>)
    ensures multiset(OwnKeys(t)) == multiset(t.keys)
    ensures var n := |Filter(t.keys, IsIndexKey)|;
      n <= |OwnKeys(t)| &&
      (forall i :: 0 <= i < n ==> IsIndexKey(OwnKeys(t)[i])) &&
      (forall i, j :: 0 <= i < j < n ==> KeyIndex(OwnKeys(t)[i]) <= KeyIndex(OwnKeys(t)[j])) &&
      OwnKeys(t)[n..] == Filter(t.keys, IsNamedKey)
  {
    IndexLeTotal();
    var idx := Filter(t.keys, IsIndexKey);
    var named := Filter(t.keys, IsNamedKey);
    var sorted := SortBy(idx, IndexLe);
    SortByLength(idx, IndexLe);
    assert OwnKeys(t) == sorted + named;
    FilterSplitMultiset(t.keys);
    forall i | 0 <= i < |sorted| ensures IsIndexKey(sorted[i]) {
      assert sorted[i] in multiset(idx);
      var k :| 0 <= k < |idx| && idx[k] == sorted[i];
    }
    assert (sorted + named)[|sorted|..] == named;
  }

  /** Splitting keys into index and named keys loses none and adds none. */
  lemma FilterSplitMultiset(ks: seq<string>)
    ensures multiset(Filter(ks, IsIndexKey)) + multiset(Filter(ks, IsNamedKey)) == multiset(ks)
  {
    FilterComplement(ks, IsIndexKey, IsNamedKey);
  }

  /** Object.values follows Object.keys: the first value is the one under the first key. */
  lemma FirstValueOfFirstKey(v: Option<JsValue>)
    requires Truthy(v) && Keys(v) != []
    requires v.value.JObject? ==> Valid(v.value.fields)
    ensures FirstValue(v) == Member(v.value, Keys(v)[0])
  {
    match v.value
    case JObject(t) =>
      OwnKeysOrder(t);
      assert OwnKeys(t)[0] in multiset(t.keys);
    case JList(items) =>
      IndexKeyOf(0);
    case JStr(s) =>
      IndexKeyOf(0);
    case _ =>
  }

  /** An array's keys name its elements, in order. */
  lemma ListKeys(items: seq<JsValue>, i: nat)
    requires i < |items| < 0xFFFF_FFFF
    ensures Keys(Some(JList(items)))[i] == NatToString(i)
    ensures Member(JList(items), NatToString(i)) == Some(items[i])
  {
    IndexKeyOf(i);
  }

  /** `{"J-2": 1, "15": 5}`: Object.keys lists "15" before "J-2". */
  lemma IndexKeyBeforeName(t: Table<string, JsValue>)
    requires t.keys == ["J-2", "15"]
    ensures OwnKeys(t) == ["15", "J-2"]
  {
    IndexKeyOf(15);
    assert NatToString(15) == "15";
    assert !IsIndexKey("J-2");
    assert Filter(t.keys, IsIndexKey) == ["15"];
    assert Filter(t.keys, IsNamedKey) == ["J-2"];
  }

  /** Keys inserted as "21" then "1": Object.keys lists "1" first. */
  lemma IndexKeysAscend(t: Table<string, JsValue>)
    requires t.keys == ["21", "1"]
    ensures OwnKeys(t) == ["1", "21"]
  {
    BothIndexKeys(t.keys);
    SortedTwoKeys();
  }

  /** "21" and "1" are both index keys, so the named part is empty. */
  lemma BothIndexKeys(ks: seq<string>)
    requires ks == ["21", "1"]
    ensures Filter(ks, IsIndexKey) == ["21", "1"] && Filter(ks, IsNamedKey) == []
  {
    IndexKeyOf(21);
    IndexKeyOf(1);
    assert NatToString(21) == "21" && NatToString(1) == "1";
  }

  /** "21" names 21 and "1" names 1. */
  lemma TwoKeyIndices()
    ensures KeyIndex("21") == 21 && KeyIndex("1") == 1
  {
    IndexKeyOf(21);
    IndexKeyOf(1);
    assert NatToString(21) == "21" && NatToString(1) == "1";
  }

  /** Sorting inserts "21" after "1", which names the smaller number. */
  lemma SortedTwoKeys()
    ensures TotalPreorder(IndexLe) && SortBy(["21", "1"], IndexLe) == ["1", "21"]
  {
    TwoKeyIndices();
    IndexLeTotal();
    assert SortBy(["1"], IndexLe) == ["1"];
    assert !IndexLe("21", "1");
    assert InsertBy("21", ["1"], IndexLe) == ["1", "21"];
  }

  /** `Object.values({"b": 2, "1": 3})[0]` is 3: the index key comes first. */
  lemma FirstValueIndexFirst(t: Table<string, JsValue>)
    requires t.keys == ["b", "1"] && t.entries == map["b" := JNum(2.0), "1" := JNum(3.0)]
    ensures FirstValue(Some(JObject(t))) == Some(JNum(3.0))
  {
    IndexKeyOf(1);
    assert NatToString(1) == "1";
    assert !IsIndexKey("b");
    assert Filter(t.keys, IsIndexKey) == ["1"];
    assert Filter(t.keys, IsNamedKey) == ["b"];
    assert OwnKeys(t) == ["1", "b"];
  }
}
