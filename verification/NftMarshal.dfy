/**
 The ReallyValue methods of utils/nft with the loops of the source, proved against the printing
 functions of module NftExpr. A nil dereference shows as Failed.
 */
module NftMarshal {
  import opened Common
  import opened NftExpr

  method ReallyValue(e: Any) returns (r: Result<Json>)
    ensures r == Print(e)
    decreases e, 1
  {
    match e
    case Match(_, _, _) => r := MatchReallyValue(e);
    case Jhash(_, _, _) => r := JhashReallyValue(e);
    case Concat(data) => r := ItemsReallyValue(data);
    case Mangle(_, _) => r := MangleReallyValue(e);
    case _ => r := Print(e);
  }

  // Match.ReallyValue: the left side is printed only if it is not empty.
  method MatchReallyValue(e: Any) returns (r: Result<Json>)
    requires e.Match?
    ensures r == Print(e)
    decreases e, 0
  {
    hide PrintRight;
    var res := map[KOp := JStr(e.op)];
    if e.left != map[] {
      var t: map<Key, Json> := map[];
      var keys := e.left.Keys;
      while keys != {}
        invariant keys <= e.left.Keys
        invariant forall k :: k in e.left && k !in keys ==> Print(e.left[k]).Ok?
        invariant t == map k | k in e.left && k !in keys :: Print(e.left[k]).value
        decreases |keys|
      {
        hide Print;
        var k :| k in keys;
        keys := keys - {k};
        var v := ReallyValue(e.left[k]);
        if v.Failed? {
          PrintFails(e, k);
          return Failed;
        }
        t := t[k := v.value];
      }
      assert t == PrintedMap(e.left).fields by {
        hide Print;
      }
      res := res[KLeft := JObj(t)];
    }
    if e.right == None {
      return Failed;
    }
    var right := RightReallyValue(e.right.value);
    if right.Failed? {
      return Failed;
    }
    res := res[KRight := right.value];
    MatchPrinted(e, res);
    r := Ok(JObj(res));
  }

  lemma PrintFails(e: Any, k: Key)
    requires e.Match? && k in e.left && Print(e.left[k]).Failed?
    ensures Print(e).Failed?
  {
  }

  lemma MatchPrinted(e: Any, res: map<Key, Json>)
    requires e.Match? && e.right.Some? && PrintRight(e.right.value).Ok?
    requires forall k :: k in e.left ==> Print(e.left[k]).Ok?
    requires res == if e.left == map[] then map[KOp := JStr(e.op), KRight := PrintRight(e.right.value).value]
                    else map[KOp := JStr(e.op), KLeft := PrintedMap(e.left), KRight := PrintRight(e.right.value).value]
    ensures Print(e) == Ok(JObj(res))
  {
    hide PrintRight;
    var start := map[KOp := JStr(e.op), KRight := PrintRight(e.right.value).value];
    if e.left != map[] {
      assert res == start[KLeft := PrintedMap(e.left)];
    }
  }

  // Jhash.ReallyValue: the entries go beside "expr" and may replace what is there.
  method JhashReallyValue(e: Any) returns (r: Result<Json>)
    requires e.Jhash?
    ensures r == Print(e)
    decreases e, 0
  {
    hide Print;
    var res := JhashStart(e);
    var keys := e.exprs.Keys;
    while keys != {}
      invariant keys <= e.exprs.Keys
      invariant forall k :: k in e.exprs && k !in keys ==> e.exprs[k].Some? && Print(e.exprs[k].value).Ok?
      invariant res == JhashStart(e) + map k | k in e.exprs && k !in keys :: Print(e.exprs[k].value).value
      decreases |keys|
    {
      hide JhashStart;
      var k :| k in keys;
      keys := keys - {k};
      if e.exprs[k] == None {
        JhashFails(e, k);
        return Failed;
      }
      var v := ReallyValue(e.exprs[k].value);
      if v.Failed? {
        JhashFails(e, k);
        return Failed;
      }
      res := res[k := v.value];
    }
    assert (map k | k in e.exprs && k !in keys :: Print(e.exprs[k].value).value)
        == (map k | k in e.exprs :: Print(e.exprs[k].value).value);
    JhashPrinted(e);
    r := Ok(JObj(res));
  }

  function JhashStart(e: Any): map<Key, Json>
    requires e.Jhash?
  {
    map[KMod := JNum(e.mod), KOffset := JNum(e.offset), KExpr := JObj(map[])]
  }

  lemma JhashFails(e: Any, k: Key)
    requires e.Jhash? && k in e.exprs && (e.exprs[k] == None || Print(e.exprs[k].value).Failed?)
    ensures Print(e).Failed?
  {
  }

  lemma JhashPrinted(e: Any)
    requires e.Jhash? && forall k :: k in e.exprs ==> e.exprs[k].Some? && Print(e.exprs[k].value).Ok?
    ensures Print(e) == Ok(JObj(JhashStart(e) + map k | k in e.exprs :: Print(e.exprs[k].value).value))
  {
    assert Print(e).Ok?;
    assert Print(e).value.fields == JhashStart(e) + map k | k in e.exprs :: Print(e.exprs[k].value).value;
  }

  // Mangle.ReallyValue: both fields are printed, and a nil one is dereferenced.
  method MangleReallyValue(e: Any) returns (r: Result<Json>)
    requires e.Mangle?
    ensures r == Print(e)
    decreases e, 0
  {
    if e.mangleKey == None {
      return Failed;
    }
    var key := ReallyValue(e.mangleKey.value);
    if key.Failed? || e.mangleValue == None {
      return Failed;
    }
    var value := ReallyValue(e.mangleValue.value);
    if value.Failed? {
      return Failed;
    }
    r := Ok(JObj(map[KKey := key.value, KValue := value.value]));
  }

  // RightValue.ReallyValue
  method RightReallyValue(v: RightValue) returns (r: Result<Json>)
    ensures r == PrintRight(v)
    decreases v
  {
    if v.anys != map[] {
      var res: map<Key, Json> := map[];
      var keys := v.anys.Keys;
      while keys != {}
        invariant keys <= v.anys.Keys
        invariant forall k :: k in v.anys && k !in keys ==> Print(v.anys[k]).Ok?
        invariant res == map k | k in v.anys && k !in keys :: Print(v.anys[k]).value
        decreases |keys|
      {
        hide Print;
        var k :| k in keys;
        keys := keys - {k};
        var any := ReallyValue(v.anys[k]);
        if any.Failed? {
          return Failed;
        }
        res := res[k := any.value];
      }
      assert res == PrintedMap(v.anys).fields by {
        hide Print;
      }
      hide Print;
      return Ok(JObj(res));
    }
    r := Ok(v.data);
  }

  // ExprData.ReallyValue; Go's nil slice, which no element has been appended to, is null.
  method ItemsReallyValue(items: seq<Item>) returns (r: Result<Json>)
    ensures r == PrintItems(items)
    decreases items
  {
    hide Print;
    var res: seq<Json> := [];
    for i := 0 to |items|
      invariant forall j | 0 <= j < i :: PrintItem(items[j]).Ok?
      invariant |res| == i && forall j | 0 <= j < i :: res[j] == PrintItem(items[j]).value
    {
      hide PrintItem;
      var value := ItemReallyValue(items[i]);
      if value.Failed? {
        return Failed;
      }
      res := res + [value.value];
    }
    hide PrintItem;
    if items == [] {
      return Ok(JNull);
    }
    assert res == PrintedItems(items);
    r := Ok(JArr(res));
  }

  // The single entry of one element.
  method ItemReallyValue(item: Item) returns (r: Result<Json>)
    ensures r == PrintItem(item)
    decreases item
  {
    hide Print;
    r := ReallyValue(item.any);
    if r.Ok? {
      r := Ok(JObj(map[item.name := r.value]));
    }
  }
}
