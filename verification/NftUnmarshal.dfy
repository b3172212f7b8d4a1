/**
 The UnmarshalJSON methods of utils/nft with the loops of the source. Go visits a map in no fixed
 order, and so do the loops here: what a method yields is one of the values that module NftOrder
 relates to its input, and it fails exactly if the parser of module NftExpr does.
 */
module NftUnmarshal {
  import opened Common
  import opened NftExpr
  import opened NftOrder

  // json.Unmarshal into exprFromName(name)
  method Unmarshal(name: Key, j: Json, f: int -> int) returns (r: Result<Any>)
    ensures r.Failed? <==> Parse(name, j, f).Failed?
    ensures r.Ok? ==> Decodes(name, j, f, r.value) && TypeName(r.value) == name
    ensures SoundJson(name, j) ==> r == Parse(name, j, f)
    decreases j, 3
  {
    hide ParseFlat, ParseItems, ParseMap, ParseQueue, ParseRange, DecodesItems, SoundJson, DecodesMatch;
    if name == KMatch {
      r := UnmarshalMatch(j, f);
      assert Parse(name, j, f) == ParseMatch(j, f);
      hide ParseMatch;
    } else if name == KConcat {
      r := UnmarshalConcat(j, f);
    } else {
      r := Parse(name, j, f);
    }
    if r.Ok? {
      DecodedUnderOwnName(name, j, f, r.value);
      SoundDecodesAlike(name, j, f, r.value);
    }
    hide Parse, TypeName;
  }

  // Concat.UnmarshalJSON
  method UnmarshalConcat(j: Json, f: int -> int) returns (r: Result<Any>)
    ensures r.Failed? <==> Parse(KConcat, j, f).Failed?
    ensures r.Ok? ==> Decodes(KConcat, j, f, r.value)
    decreases j, 2
  {
    hide ParseFlat, ParseItems, DecodesItems;
    match j
    case JNull => r := Ok(Concat([]));
    case JObj(m) =>
      if KData !in m {
        return Ok(Concat([]));
      }
      var data := UnmarshalExprData(m[KData], f);
      if data.Failed? {
        return Failed;
      }
      r := Ok(Concat(data.value));
    case _ => r := Failed;
  }

  // The loop over rawMap in RightValue.UnmarshalJSON and over leftMap in Match.UnmarshalJSON.
  method UnmarshalMap(j: Json, f: int -> int) returns (r: Result<map<Key, Any>>)
    requires j.JObj?
    ensures r.Failed? <==> ParseMap(j, f).Failed?
    ensures r.Ok? ==> DecodesMap(j, f, r.value)
    decreases j, 0
  {
    hide Parse, Decodes, Registered, ParseMap, TypeName, SoundJson;
    var m: map<Key, Any> := map[];
    var keys := j.fields.Keys;
    while keys != {}
      invariant keys <= j.fields.Keys
      invariant m.Keys == Visited(j, keys)
      invariant forall k :: k in m ==> k in j.fields && Parse(k, j.fields[k], f).Ok? && Decodes(k, j.fields[k], f, m[k])
      decreases |keys|
    {
      var k :| k in keys;
      ghost var before := Visited(j, keys);
      keys := keys - {k};
      assert Visited(j, keys) == if Registered(k) then before + {k} else before;
      if Registered(k) {
        var expr := Unmarshal(k, j.fields[k], f);
        if expr.Failed? {
          MapFailsWithMember(j, f);
          return Failed;
        }
        m := m[k := expr.value];
      }
    }
    assert Visited(j, {}) == RegisteredIn(j);
    MapFailsWithMember(j, f);
    r := Ok(m);
  }

  lemma MapFailsWithMember(j: Json, f: int -> int)
    requires j.JObj?
    ensures ParseMap(j, f).Failed? <==> exists k :: k in RegisteredIn(j) && Parse(k, j.fields[k], f).Failed?
  {
    hide Parse, Registered;
  }

  // RightValue.UnmarshalJSON
  method UnmarshalRight(j: Json, f: int -> int) returns (r: Result<RightValue>)
    ensures r.Failed? <==> ParseRight(j, f).Failed?
    ensures r.Ok? ==> DecodesRight(j, f, r.value)
    ensures !j.JObj? && Exact(j, f) ==> r == Ok(RightValue(map[], j))
    decreases j, 1
  {
    hide ParseMap, DecodesMap, Refloat;
    if j.JObj? {
      var anys := UnmarshalMap(j, f);
      if anys.Failed? {
        return Failed;
      }
      r := Ok(RightValue(anys.value, JNull));
    } else {
      RefloatKeepsIffExact(j, f);
      r := Ok(RightValue(map[], Refloat(j, f)));
    }
  }

  // Match.UnmarshalJSON
  method UnmarshalMatch(j: Json, f: int -> int) returns (r: Result<Any>)
    ensures r.Failed? <==> ParseMatch(j, f).Failed?
    ensures r.Ok? ==> DecodesMatch(j, f, r.value)
    decreases j, 2
  {
    hide ParseMap, ParseRight, DecodesMap, DecodesRight;
    if !j.JObj? || KOp !in j.fields || !j.fields[KOp].JStr? {
      return Failed;
    }
    var right: Option<RightValue> := None;
    if KRight in j.fields {
      var rv := UnmarshalRight(j.fields[KRight], f);
      if rv.Failed? {
        return Failed;
      }
      right := Some(rv.value);
    }
    var left: map<Key, Any> := map[];
    if KLeft in j.fields && j.fields[KLeft] != JNull {
      if !j.fields[KLeft].JObj? {
        return Failed;
      }
      var m := UnmarshalMap(j.fields[KLeft], f);
      if m.Failed? {
        return Failed;
      }
      left := m.value;
    }
    r := Ok(Match(j.fields[KOp].s, left, right));
  }

  // The registered members of an object that have been visited once `keys` are left.
  function Visited(j: Json, keys: set<Key>): set<Key>
    requires j.JObj?
  {
    set k | k in j.fields && k !in keys && Registered(k)
  }

  // The inner loop of ExprData.UnmarshalJSON
  method UnmarshalElem(j: Json, f: int -> int) returns (r: Result<seq<Item>>)
    ensures r.Failed? <==> ParseElem(j, f).Failed?
    ensures r.Ok? ==> DecodesElem(j, f, r.value)
    decreases j, 4
  {
    hide Parse, ParseNames, Decodes, Registered;
    if j.JNull? {
      return Ok([]);
    }
    if !j.JObj? {
      return Failed;
    }
    var out: seq<Item> := [];
    var keys := j.fields.Keys;
    while keys != {}
      invariant keys <= j.fields.Keys
      invariant |out| == |Visited(j, keys)| && NamesOf(out) == Visited(j, keys)
      invariant forall k :: k in Visited(j, keys) ==> Parse(k, j.fields[k], f).Ok?
      invariant forall item :: item in out ==>
        item.name in j.fields && Decodes(item.name, j.fields[item.name], f, item.any)
      decreases |keys|
    {
      var k :| k in keys;
      ghost var before := Visited(j, keys);
      keys := keys - {k};
      assert Visited(j, keys) == if Registered(k) then before + {k} else before;
      if Registered(k) {
        var expr := Unmarshal(k, j.fields[k], f);
        if expr.Failed? {
          NamesAreRegistered(k);
          NamesFail(j, NAMES, f);
          return Failed;
        }
        OneMoreName(out, Item(k, expr.value));
        out := out + [Item(k, expr.value)];
      }
    }
    assert Visited(j, {}) == RegisteredIn(j);
    PresentIsRegistered(j);
    NamesFail(j, NAMES, f);
    assert forall k :: k in NAMES && k in j.fields ==> k in Present(j, NAMES);
    r := Ok(out);
  }

  lemma OneMoreName(items: seq<Item>, item: Item)
    ensures NamesOf(items + [item]) == NamesOf(items) + {item.name}
  {
    var longer := items + [item];
    assert forall x :: x in longer <==> x in items || x == item;
  }

  // ExprData.UnmarshalJSON on an empty receiver
  method UnmarshalExprData(j: Json, f: int -> int) returns (r: Result<seq<Item>>)
    ensures r.Failed? <==> ParseItems(j, f).Failed?
    ensures r.Ok? ==> DecodesItems(j, f, r.value)
    ensures r.Ok? && SoundList(j) && OneEach(j) ==> r == ParseItems(j, f)
    decreases j, 1
  {
    hide ParseElem, DecodesElem, OneEach, SoundList;
    if j.JNull? {
      return Ok([]);
    }
    if !j.JArr? {
      return Failed;
    }
    var elems := j.elems;
    var out: seq<Item> := [];
    assert elems[..0] == [];
    for i := 0 to |elems|
      invariant DecodesElems(elems[..i], f, out)
      invariant ParseElems(elems, f).Failed? <==> ParseElems(elems[i..], f).Failed?
    {
      hide DecodesElems;
      var items := UnmarshalElem(elems[i], f);
      assert elems[i..][0] == elems[i] && elems[i..][1..] == elems[i + 1..];
      if items.Failed? {
        return Failed;
      }
      OneMoreElem(elems[..i], f, out, elems[i], items.value);
      assert elems[..i + 1] == elems[..i] + [elems[i]];
      out := out + items.value;
    }
    assert elems[..|elems|] == elems && elems[|elems|..] == [];
    r := Ok(out);
    if SoundList(j) && OneEach(j) {
      OneOrder(j, f, out);
    }
  }
}
