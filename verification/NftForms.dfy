/**
 The written form of each nftables expression (the leaf types of utils/nft): the printer writes it, the
 parser reads it, and what the parser makes of members that are absent, null or of the wrong kind.
 */
module NftForms {
  import opened Common
  import opened NftExpr
  import NftMarshal

  // The JSON of an expression that holds no other ones, member by member.
  predicate IsFormOf(j: Json, e: Any) {
    match e
    case Range(None) => j == JNull
    case Range(Some(items)) =>
      j.JArr? && |j.elems| == |items| && forall i :: 0 <= i < |items| ==> j.elems[i] == JStr(items[i])
    case Meta(key) => j == JObj(map[KKey := JStr(key)])
    case Counter(bytes, packets) => j == JObj(map[KBytes := JNum(bytes), KPackets := JNum(packets)])
    case Payload(protocol, field) => j == JObj(map[KProtocol := JStr(protocol), KField := JStr(field)])
    case Log(prefix) => j == JObj(map[KPrefix := JStr(prefix)])
    case Queue(num) => j == JObj(map[KNum := JNum(num)])
    case SynProxy(mss, wscale, flags) =>
      j == JObj(map[KMss := JNum(mss), KWscale := JNum(wscale), KFlags := JNum(flags)])
    case Jump(target) => j == JObj(map[KTarget := JStr(target)])
    case XT(xtType, name) => j == JObj(map[KType := JStr(xtType), KName := JStr(name)])
    case CT(key) => j == JObj(map[KKey := JStr(key)])
    case Prefix(addr, len) => j == JObj(map[KAddr := JStr(addr), KLen := JNum(len)])
    case Reject(rejectType, expr) => j == JObj(map[KType := JStr(rejectType), KExpr := JStr(expr)])
    case Jhash(mod, offset, _) => j == JObj(map[KMod := JNum(mod), KOffset := JNum(offset), KExpr := JObj(map[])])
    case _ => false
  }

  // An expression in which no other one is.
  predicate IsLeaf(e: Any) {
    !e.Match? && !e.Mangle? && !e.Concat? && (e.Jhash? ==> e.exprs == map[])
  }

  // The printer writes the form, and nothing else.
  lemma {:induction false} PrintsItsForm(e: Any, j: Json)
    requires IsLeaf(e)
    ensures Print(e) == Ok(j) <==> IsFormOf(j, e)
  {
    if e.Range? && e.items.Some? && IsFormOf(j, e) {
      assert Print(e).value.elems == j.elems;
    } else if e.Jhash? {
      JhashPrints(e);
    }
  }

  // A mangle prints its two sides under their names, if both are there and print.
  lemma {:induction false} ManglePrints(e: Any, key: Json, value: Json)
    requires e.Mangle?
    ensures Print(e) == Ok(JObj(map[KKey := key, KValue := value])) <==>
      && e.mangleKey.Some? && Print(e.mangleKey.value) == Ok(key)
      && e.mangleValue.Some? && Print(e.mangleValue.value) == Ok(value)
  {
    var m := map[KKey := key, KValue := value];
    if Print(e) == Ok(JObj(m)) {
      assert m[KKey] == Print(e).value.fields[KKey] && m[KValue] == Print(e).value.fields[KValue];
    }
  }

  // The entries of a jhash come beside its other members, and before them under the same name.
  lemma {:induction false} JhashEntriesBeside(e: Any, k: Key)
    requires e.Jhash? && Print(e).Ok?
    ensures Print(e).value.JObj?
    ensures
      var fields := Print(e).value.fields;
      && (k in e.exprs ==> k in fields && e.exprs[k].Some? && Print(e.exprs[k].value) == Ok(fields[k]))
      && (k !in e.exprs ==>
            Lookup(fields, k) == if k == KMod then Some(JNum(e.mod)) else if k == KOffset then Some(JNum(e.offset))
                                 else if k == KExpr then Some(JObj(map[])) else None)
  {
  }

  // The parser reads the form, if its numbers survive.
  lemma {:induction false} ReadsItsForm(e: Any, j: Json, f: int -> int)
    requires FloatPassage(f) && IsLeaf(e) && IsFormOf(j, e)
    ensures Parse(TypeName(e), j, f) == Ok(e) <==> Canonical(e, f)
  {
    hide IsFormOf;
    PrintsItsForm(e, j);
    RoundTripsIffCanonical(e, f);
    hide Print, Parse, Canonical;
  }

  // A queue may also be a bare number, which means the same as its member.
  lemma {:induction false} BareQueue(n: int, f: int -> int)
    ensures Parse(KQueue, JNum(n), f) == Parse(KQueue, JObj(map[KNum := JNum(n)]), f)
    ensures Parse(KQueue, JNum(n), f) == if -TWO_64 / 2 <= f(n) < TWO_64 / 2 then Ok(Queue(f(n))) else Failed
  {
    hide ParseFlat, ParseItems, ParseMap;
  }

  // The names under which null, and an object without members, are the value with nothing set.
  function Zero(name: Key): Option<Any> {
    if name == KMeta then Some(Meta(""))
    else if name == KCounter then Some(Counter(0, 0))
    else if name == KPayload then Some(Payload("", ""))
    else if name == KLog then Some(Log(""))
    else if name == KSynproxy then Some(SynProxy(0, 0, 0))
    else if name == KJump then Some(Jump(""))
    else if name == KXt then Some(XT("", ""))
    else if name == KCt then Some(CT(""))
    else if name == KPrefix then Some(Prefix("", 0))
    else if name == KReject then Some(Reject("", ""))
    else if name == KMangle then Some(Mangle(None, None))
    else if name == KJhash then Some(Jhash(0, 0, map[]))
    else if name == KConcat then Some(Concat([]))
    else None
  }

  lemma {:induction false} NullIsNothingSet(name: Key, f: int -> int)
    requires Zero(name).Some?
    ensures Parse(name, JNull, f) == Ok(Zero(name).value)
    ensures Parse(name, JObj(map[]), f) == Ok(Zero(name).value)
  {
    hide ParseItems, ParseMap, ParseFlat;
    if name != KConcat {
      NoMembersNothingSet(name, f);
      assert Members(JNull) == Members(JObj(map[])) == Ok(map[]);
    }
  }

  lemma {:induction false} NoMembersNothingSet(name: Key, f: int -> int)
    requires Zero(name).Some? && name != KConcat
    ensures ParseFlat(name, map[], f) == Ok(Zero(name).value)
  {
    NoFields(f);
    hide StrField, IntField, U64Field, I64Field, Members;
    match name
    case KMeta =>
    case KCounter =>
    case KPayload =>
    case KLog =>
    case KSynproxy =>
    case KJump =>
    case KXt =>
    case KCt =>
    case KPrefix =>
    case KReject =>
    case KMangle =>
    case KJhash =>
      var r := ParseFlat(KJhash, map[], f);
      assert r.Ok? && r.value.Jhash? && r.value.exprs == map[];
    case _ =>
  }

  lemma NoFields(f: int -> int)
    ensures forall k :: StrField(map[], k) == Ok("")
    ensures forall k, lo, hi | lo <= 0 <= hi :: IntField(map[], k, lo, hi, f) == Ok(0)
    ensures forall k :: U64Field(map[], k, f) == Ok(0) && I64Field(map[], k, f) == Ok(0)
  {
  }

  // But a queue and a match need something there.
  lemma {:induction false} NullQueueOrMatchFails(f: int -> int)
    ensures Parse(KQueue, JNull, f) == Parse(KMatch, JNull, f) == Failed
    ensures Parse(KQueue, JObj(map[]), f) == Ok(Queue(0))
    ensures Parse(KMatch, JObj(map[]), f) == Failed
  {
    hide ParseItems, ParseMap, ParseFlat;
  }

  // A null member is no member.
  lemma {:induction false} NullMemberIsAbsent(name: Key, m: map<Key, Json>, k: Key, f: int -> int)
    requires Zero(name).Some? && k in m && m[k] == JNull
    ensures Parse(name, JObj(m), f) == Parse(name, JObj(m - {k}), f)
  {
    hide ParseItems, ParseMap, ParseFlat;
    if name == KConcat {
      NoItems(f);
    } else {
      NullFieldIsAbsent(name, m, k, f);
    }
  }

  lemma NoItems(f: int -> int)
    ensures ParseItems(JNull, f) == Ok([])
  {
  }

  lemma {:induction false} NullFieldIsAbsent(name: Key, m: map<Key, Json>, k: Key, f: int -> int)
    requires Zero(name).Some? && name != KConcat && k in m && m[k] == JNull
    ensures ParseFlat(name, m, f) == ParseFlat(name, m - {k}, f)
  {
    if name == KJhash {
      NullEntriesAreAbsent(m, k, f);
    } else if name == KCounter || name == KSynproxy || name == KPrefix {
      NullNumberIsAbsent(name, m, k, f);
    } else if name != KMangle {
      NullTextIsAbsent(name, m, k, f);
    }
    hide Zero;
  }

  lemma {:induction false} NullNumberIsAbsent(name: Key, m: map<Key, Json>, k: Key, f: int -> int)
    requires name == KCounter || name == KSynproxy || name == KPrefix
    requires k in m && m[k] == JNull
    ensures ParseFlat(name, m, f) == ParseFlat(name, m - {k}, f)
  {
    FieldsWithoutNull(m, k, f);
    hide StrField, IntField, U64Field, I64Field, Members;
  }

  lemma {:induction false} NullTextIsAbsent(name: Key, m: map<Key, Json>, k: Key, f: int -> int)
    requires name in {KMeta, KPayload, KLog, KJump, KXt, KCt, KReject}
    requires k in m && m[k] == JNull
    ensures ParseFlat(name, m, f) == ParseFlat(name, m - {k}, f)
  {
    FieldsWithoutNull(m, k, f);
    hide StrField, IntField, U64Field, I64Field, Members;
    match name
    case KMeta =>
    case KPayload =>
    case KLog =>
    case KJump =>
    case KXt =>
    case KCt =>
    case KReject =>
  }

  lemma {:induction false} NullEntriesAreAbsent(m: map<Key, Json>, k: Key, f: int -> int)
    requires k in m && m[k] == JNull
    ensures ParseFlat(KJhash, m, f) == ParseFlat(KJhash, m - {k}, f)
  {
    FieldsWithoutNull(m, k, f);
    assert Members(m[k]) == Ok(map[]);
    hide IntField, I64Field, Members;
  }

  lemma FieldsWithoutNull(m: map<Key, Json>, k: Key, f: int -> int)
    requires k in m && m[k] == JNull
    ensures forall l :: StrField(m - {k}, l) == StrField(m, l)
    ensures forall l, lo, hi | lo <= 0 <= hi :: IntField(m - {k}, l, lo, hi, f) == IntField(m, l, lo, hi, f)
    ensures forall l :: U64Field(m - {k}, l, f) == U64Field(m, l, f) && I64Field(m - {k}, l, f) == I64Field(m, l, f)
  {
  }

  // What is neither null nor an object has no members to decode.
  lemma {:induction false} OtherKindsFail(name: Key, j: Json, f: int -> int)
    requires Zero(name).Some? && !j.JNull? && !j.JObj?
    ensures Parse(name, j, f) == Failed
  {
    hide ParseFlat, ParseItems, ParseMap;
  }

  // A match, with plain data on its right side.
  lemma {:induction false} MatchForm(op: string, left: map<Key, Json>, right: Json, f: int -> int)
    requires !right.JObj? && Exact(right, f) && ParseMap(JObj(left), f).Ok?
    ensures
      var j := JObj(map[KOp := JStr(op), KLeft := JObj(left), KRight := right]);
      Parse(KMatch, j, f) == Ok(Match(op, ParseMap(JObj(left), f).value, Some(RightValue(map[], right))))
  {
    hide ParseMap, ParseItems, Refloat;
    RefloatKeepsIffExact(right, f);
    var j := JObj(map[KOp := JStr(op), KLeft := JObj(left), KRight := right]);
    assert Parse(KMatch, j, f) == ParseMatch(j, f);
    assert ParseLeft(j, f) == ParseMap(JObj(left), f);
    assert ParseRight(right, f) == Ok(RightValue(map[], right));
  }

  // A match needs an operator; without a left side, or with null for it, the left side is empty; without
  // a right side there is none.
  lemma {:induction false} MatchSides(m: map<Key, Json>, f: int -> int)
    requires Parse(KMatch, JObj(m), f).Ok?
    ensures
      var e := Parse(KMatch, JObj(m), f).value;
      && e.Match? && KOp in m && m[KOp] == JStr(e.op)
      && (KLeft !in m || m[KLeft] == JNull ==> e.left == map[])
      && (e.right == None <==> KRight !in m)
      && (KRight in m && m[KRight] == JNull ==> e.right == Some(RightValue(map[], JNull)))
  {
    hide ParseItems, ParseMap, ParseFlat;
    var j := JObj(m);
    assert Parse(KMatch, j, f) == ParseMatch(j, f);
    hide Parse;
    var e := ParseMatch(j, f).value;
    assert KOp in m && m[KOp] == JStr(e.op);
    assert ParseLeft(j, f) == Ok(e.left);
    if KRight in m {
      assert ParseRight(m[KRight], f) == Ok(e.right.value);
    }
    hide ParseMatch;
  }

  lemma {:induction false} BareMatch(op: string, f: int -> int)
    ensures Parse(KMatch, JObj(map[KOp := JStr(op)]), f) == Ok(Match(op, map[], None))
  {
    hide ParseItems, ParseMap, ParseFlat, ParseRight;
    var j := JObj(map[KOp := JStr(op)]);
    assert Parse(KMatch, j, f) == ParseMatch(j, f);
    hide Parse;
    assert KOp in j.fields && j.fields[KOp] == JStr(op);
    assert ParseLeft(j, f) == Ok(map[]);
    assert KRight !in j.fields;
    assert ParseMatch(j, f) == Ok(Match(op, map[], None));
  }

  // A rule's match on an address, as in test/resources/cilium.json, is read as it is written and
  // printed as it was.
  lemma {:induction false} AddressMatch(op: string, protocol: string, field: string, address: string, f: int -> int)
    requires FloatPassage(f)
    ensures
      var payload := StrObj(KProtocol, protocol, KField, field);
      var j := JObj(map[KOp := JStr(op), KLeft := JObj(map[KPayload := payload]), KRight := JStr(address)]);
      var e := Match(op, map[KPayload := Payload(protocol, field)], Some(RightValue(map[], JStr(address))));
      Parse(KMatch, j, f) == Ok(e) && Print(e) == Ok(j)
  {
    PayloadAlone(protocol, field, f);
    hide Parse, Registered, ParseMap;
    assert Exact(JStr(address), f);
    MatchForm(op, map[KPayload := StrObj(KProtocol, protocol, KField, field)], JStr(address), f);
    hide Print, FloatPassage;
    var left := map[KPayload := Payload(protocol, field)];
    assert KPayload in left;
    AddressPrinted(op, left, address);
  }

  lemma {:induction false} AddressPrinted(op: string, left: map<Key, Any>, address: string)
    requires left != map[] && forall k | k in left :: Print(left[k]).Ok?
    ensures
      Print(Match(op, left, Some(RightValue(map[], JStr(address)))))
        == Ok(JObj(map[KOp := JStr(op), KLeft := PrintedMap(left), KRight := JStr(address)]))
  {
    var e := Match(op, left, Some(RightValue(map[], JStr(address))));
    assert PrintRight(e.right.value) == Ok(JStr(address));
    hide Print, PrintRight;
    NftMarshal.MatchPrinted(e, map[KOp := JStr(op), KLeft := PrintedMap(left), KRight := JStr(address)]);
  }

  lemma {:induction false} PayloadAlone(protocol: string, field: string, f: int -> int)
    requires FloatPassage(f)
    ensures
      var e, j := Payload(protocol, field), StrObj(KProtocol, protocol, KField, field);
      && Print(e) == Ok(j)
      && PrintedMap(map[KPayload := e]) == JObj(map[KPayload := j])
      && ParseMap(JObj(map[KPayload := j]), f) == Ok(map[KPayload := e])
  {
    var e, j := Payload(protocol, field), StrObj(KProtocol, protocol, KField, field);
    assert IsFormOf(j, e);
    ReadsItsForm(e, j, f);
    PrintsItsForm(e, j);
    PayloadRegistered();
    hide Parse, Print, Registered;
    var all := JObj(map[KPayload := j]);
    assert ParseMap(all, f).Ok? && ParseMap(all, f).value == map[KPayload := e];
  }

  lemma PayloadRegistered()
    ensures Registered(KPayload)
  {
  }
}
