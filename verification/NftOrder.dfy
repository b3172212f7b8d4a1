/**
 Go visits the members of a map in no fixed order, so that one JSON text can be decoded to several
 lists of expressions. `Decodes` relates a JSON value to all that it can be decoded to; the function
 Parse of module NftExpr is one order among them. The theorems say when the order does not matter and
 when printing what was decoded, in whatever order, is a normal form.
 */
module NftOrder {
  import opened Common
  import opened NftExpr
  import opened NftNormalForm

  // The members of an object that are decoded.
  function RegisteredIn(j: Json): set<Key>
    requires j.JObj?
  {
    set k | k in j.fields && Registered(k)
  }

  /* ---- What can be decoded, over all visiting orders ---- */

  // json.Unmarshal of j into exprFromName(name)
  ghost predicate Decodes(name: Key, j: Json, f: int -> int, e: Any)
    decreases j, 2
  {
    if name == KMatch then DecodesMatch(j, f, e)
    else if name == KConcat then
      && e.Concat?
      && match j
         case JNull => e.data == []
         case JObj(m) => if KData !in m then e.data == [] else DecodesItems(m[KData], f, e.data)
         case _ => false
    else Parse(name, j, f) == Ok(e)
  }

  ghost predicate DecodesMatch(j: Json, f: int -> int, e: Any)
    decreases j, 1
  {
    && e.Match? && j.JObj? && KOp in j.fields && j.fields[KOp] == JStr(e.op)
    && (if KLeft !in j.fields || j.fields[KLeft] == JNull then e.left == map[]
        else j.fields[KLeft].JObj? && DecodesMap(j.fields[KLeft], f, e.left))
    && (if KRight !in j.fields then e.right == None
        else e.right.Some? && DecodesRight(j.fields[KRight], f, e.right.value))
  }

  ghost predicate DecodesRight(j: Json, f: int -> int, r: RightValue)
    decreases j, 1
  {
    if j.JObj? then r.data == JNull && DecodesMap(j, f, r.anys) else r == RightValue(map[], Refloat(j, f))
  }

  ghost predicate DecodesMap(j: Json, f: int -> int, m: map<Key, Any>)
    requires j.JObj?
    decreases j, 0
  {
    m.Keys == RegisteredIn(j) && forall k | k in j.fields && k in m :: Decodes(k, j.fields[k], f, m[k])
  }

  ghost predicate DecodesItems(j: Json, f: int -> int, items: seq<Item>)
    decreases j, 1
  {
    match j
    case JNull => items == []
    case JArr(elems) => DecodesElems(elems, f, items)
    case _ => false
  }

  // The elements are decoded one after the other.
  ghost predicate DecodesElems(elems: seq<Json>, f: int -> int, items: seq<Item>)
    decreases elems, 0
  {
    if elems == [] then items == []
    else exists n | 0 <= n <= |items| ::
           DecodesElem(elems[0], f, items[..n]) && DecodesElems(elems[1..], f, items[n..])
  }

  // An element gives its registered members, each once, in any order.
  ghost predicate DecodesElem(j: Json, f: int -> int, items: seq<Item>)
    decreases j, 3
  {
    match j
    case JNull => items == []
    case JObj(fields) =>
      && |items| == |RegisteredIn(j)|
      && NamesOf(items) == RegisteredIn(j)
      && forall item | item in items :: item.name in fields && Decodes(item.name, fields[item.name], f, item.any)
    case _ => false
  }

  function NamesOf(items: seq<Item>): set<Key> {
    set item | item in items :: item.name
  }

  /* ---- The order of Parse is one of them ---- */

  lemma {:induction false} ParseDecodes(name: Key, j: Json, f: int -> int)
    requires Parse(name, j, f).Ok?
    ensures Decodes(name, j, f, Parse(name, j, f).value)
    decreases j, 2
  {
    hide ParseFlat, ParseMap, ParseItems, DecodesMap, DecodesItems;
    if name == KMatch {
      assert Parse(KMatch, j, f) == ParseMatch(j, f);
      MatchDecodes(j, f);
    } else if name == KConcat && j.JObj? && KData in j.fields {
      ItemsDecode(j.fields[KData], f);
    }
  }

  lemma {:induction false} MatchDecodes(j: Json, f: int -> int)
    requires ParseMatch(j, f).Ok?
    ensures DecodesMatch(j, f, ParseMatch(j, f).value)
    decreases j, 1
  {
    hide ParseMap, DecodesMap, Refloat;
    var e := ParseMatch(j, f).value;
    assert ParseLeft(j, f) == Ok(e.left);
    if KLeft in j.fields && j.fields[KLeft] != JNull {
      MapDecodes(j.fields[KLeft], f);
    }
    if KRight in j.fields {
      assert ParseRight(j.fields[KRight], f) == Ok(e.right.value);
      if j.fields[KRight].JObj? {
        MapDecodes(j.fields[KRight], f);
      }
    }
  }

  lemma {:induction false} MapDecodes(j: Json, f: int -> int)
    requires j.JObj? && ParseMap(j, f).Ok?
    ensures DecodesMap(j, f, ParseMap(j, f).value)
    decreases j, 0
  {
    hide Parse, Decodes;
    var m := ParseMap(j, f).value;
    forall k | k in j.fields && k in m
      ensures Decodes(k, j.fields[k], f, m[k])
    {
      ParseDecodes(k, j.fields[k], f);
    }
  }

  lemma {:induction false} ItemsDecode(j: Json, f: int -> int)
    requires ParseItems(j, f).Ok?
    ensures DecodesItems(j, f, ParseItems(j, f).value)
    decreases j, 1
  {
    hide ParseElems, DecodesElems;
    if j.JArr? {
      ElemsDecode(j.elems, f);
    }
  }

  lemma {:induction false} ElemsDecode(elems: seq<Json>, f: int -> int)
    requires ParseElems(elems, f).Ok?
    ensures DecodesElems(elems, f, ParseElems(elems, f).value)
    decreases elems, 0
  {
    hide ParseElem, DecodesElem;
    if elems != [] {
      ElemDecodes(elems[0], f);
      ElemsDecode(elems[1..], f);
      var first, rest := ParseElem(elems[0], f).value, ParseElems(elems[1..], f).value;
      var items, n := first + rest, |first|;
      assert items[..n] == first && items[n..] == rest;
    }
  }

  lemma {:induction false} ElemDecodes(j: Json, f: int -> int)
    requires ParseElem(j, f).Ok?
    ensures DecodesElem(j, f, ParseElem(j, f).value)
    decreases j, 3
  {
    hide Parse, ParseNames, Decodes, Registered;
    if j.JObj? {
      var items := ParseElem(j, f).value;
      assert ParseNames(j, NAMES, f) == Ok(items);
      PresentIsRegistered(j);
      NamesItems(j, NAMES, f);
      NamesAreDistinct();
      NamesCount(j, NAMES, f);
      NamesFail(j, NAMES, f);
      forall k | k in Present(j, NAMES)
        ensures k in NamesOf(items)
      {
        assert IsItemOf(Item(k, Parse(k, j.fields[k], f).value), j, NAMES, f);
      }
      forall item | item in items
        ensures item.name in Present(j, NAMES) && Decodes(item.name, j.fields[item.name], f, item.any)
      {
        assert IsItemOf(item, j, NAMES, f);
        ParseDecodes(item.name, j.fields[item.name], f);
      }
      assert NamesOf(items) == Present(j, NAMES);
    }
  }

  lemma {:induction false} PresentIsRegistered(j: Json)
    requires j.JObj?
    ensures Present(j, NAMES) == RegisteredIn(j)
  {
    hide Registered;
    forall k
      ensures k in NAMES <==> Registered(k)
    {
      NamesAreRegistered(k);
    }
  }

  lemma {:induction false} DecodedUnderOwnName(name: Key, j: Json, f: int -> int, e: Any)
    requires Decodes(name, j, f, e)
    ensures TypeName(e) == name
  {
    if name != KMatch && name != KConcat {
      ParsedUnderOwnName(name, j, f);
      hide Parse;
    }
  }

  /* ---- When the order does not matter ---- */

  // The JSON that decodes to a sound expression, which a caller can check before decoding: a right
  // side in every match, no mangle, no member in the data of a concat, no entry in a jhash.
  predicate SoundJson(name: Key, j: Json)
    decreases j, 1
  {
    if name == KMatch then
      && j.JObj? && KRight in j.fields
      && SoundMembers(j.fields[KRight])
      && (KLeft in j.fields ==> SoundMembers(j.fields[KLeft]))
    else if name == KMangle then false
    else if name == KJhash then
      j.JObj? && KExpr in j.fields && j.fields[KExpr].JObj? ==> j.fields[KExpr].fields == map[]
    else if name == KConcat then
      j.JObj? && KData in j.fields && j.fields[KData].JArr? ==>
        forall elem | elem in j.fields[KData].elems :: Bare(elem)
    else true
  }

  // The registered members of an object are sound.
  predicate SoundMembers(j: Json)
    decreases j, 0
  {
    j.JObj? ==> forall k | k in j.fields && Registered(k) :: SoundJson(k, j.fields[k])
  }

  // An element of a list without any expression.
  predicate Bare(elem: Json) {
    elem.JObj? ==> RegisteredIn(elem) == {}
  }

  // Whatever the order, the expression is sound exactly if the JSON is, and then it is the same one.
  lemma {:induction false} SoundDecodesAlike(name: Key, j: Json, f: int -> int, e: Any)
    requires Decodes(name, j, f, e)
    ensures Sound(e) <==> SoundJson(name, j)
    ensures SoundJson(name, j) ==> Parse(name, j, f) == Ok(e)
    decreases j, 2
  {
    hide ParseFlat, ParseItems, ParseMap, ParseQueue, ParseRange;
    if name == KMatch {
      MatchDecodesAlike(j, f, e);
    } else if name == KConcat {
      if j.JObj? && KData in j.fields {
        BareDecodesAlike(j.fields[KData], f, e.data);
      }
    } else if name == KJhash {
      JhashSoundness(j, f);
    } else {
      FlatIsSound(name, j, f);
    }
  }

  lemma {:induction false} MatchDecodesAlike(j: Json, f: int -> int, e: Any)
    requires DecodesMatch(j, f, e)
    ensures Sound(e) <==> SoundJson(KMatch, j)
    ensures SoundJson(KMatch, j) ==> Parse(KMatch, j, f) == Ok(e)
    decreases j, 1
  {
    hide ParseMap, DecodesMap, Refloat;
    if KLeft in j.fields && j.fields[KLeft].JObj? {
      MapDecodesAlike(j.fields[KLeft], f, e.left);
    }
    if KRight in j.fields && j.fields[KRight].JObj? {
      MapDecodesAlike(j.fields[KRight], f, e.right.value.anys);
    }
    hide SoundMembers;
    if SoundJson(KMatch, j) {
      assert ParseLeft(j, f) == Ok(e.left);
      assert ParseRight(j.fields[KRight], f) == Ok(e.right.value);
      assert ParseMatch(j, f) == Ok(e);
    }
  }

  lemma {:induction false} MapDecodesAlike(j: Json, f: int -> int, m: map<Key, Any>)
    requires j.JObj? && DecodesMap(j, f, m)
    ensures (forall k | k in m :: Sound(m[k])) <==> SoundMembers(j)
    ensures SoundMembers(j) ==> ParseMap(j, f) == Ok(m)
    decreases j, 0
  {
    hide Parse, Decodes, Sound, SoundJson, Registered;
    forall k | k in RegisteredIn(j)
      ensures Sound(m[k]) <==> SoundJson(k, j.fields[k])
      ensures SoundJson(k, j.fields[k]) ==> Parse(k, j.fields[k], f) == Ok(m[k])
    {
      SoundDecodesAlike(k, j.fields[k], f, m[k]);
    }
    if SoundMembers(j) {
      assert ParseMap(j, f).Ok? && ParseMap(j, f).value == m;
    }
  }

  lemma {:induction false} BareDecodesAlike(j: Json, f: int -> int, items: seq<Item>)
    requires DecodesItems(j, f, items)
    ensures items == [] <==> (j.JArr? ==> forall elem | elem in j.elems :: Bare(elem))
    ensures items == [] ==> ParseItems(j, f) == Ok([])
  {
    hide ParseElems, DecodesElems;
    if j.JArr? {
      BareElems(j.elems, f, items);
    }
  }

  lemma {:induction false} BareElems(elems: seq<Json>, f: int -> int, items: seq<Item>)
    requires DecodesElems(elems, f, items)
    ensures items == [] <==> forall elem | elem in elems :: Bare(elem)
    ensures items == [] ==> ParseElems(elems, f) == Ok([])
    decreases elems
  {
    hide ParseElem, DecodesElem, Bare;
    if elems != [] {
      var n :| 0 <= n <= |items| && DecodesElem(elems[0], f, items[..n]) && DecodesElems(elems[1..], f, items[n..]);
      BareElem(elems[0], f, items[..n]);
      BareElems(elems[1..], f, items[n..]);
      assert forall elem :: elem in elems <==> elem == elems[0] || elem in elems[1..];
      if items == [] {
        assert items[..n] == [] && items[n..] == [];
        var none: seq<Item> := [];
        assert ParseElem(elems[0], f) == Ok(none) && ParseElems(elems[1..], f) == Ok(none);
        assert none + none == none;
      } else {
        assert items[..n] != [] || items[n..] != [];
      }
    }
  }

  lemma {:induction false} BareElem(elem: Json, f: int -> int, items: seq<Item>)
    requires DecodesElem(elem, f, items)
    ensures items == [] <==> Bare(elem)
    ensures items == [] ==> ParseElem(elem, f) == Ok([])
  {
    hide Parse, Decodes, Registered;
    if elem.JObj? && items == [] {
      PresentIsRegistered(elem);
      NothingPresent(elem, NAMES, f);
    }
  }

  lemma {:induction false} NothingPresent(j: Json, names: seq<Key>, f: int -> int)
    requires j.JObj? && Present(j, names) == {}
    ensures ParseNames(j, names, f) == Ok([])
    decreases names
  {
    hide Parse;
    if names != [] {
      assert names[0] in j.fields <==> names[0] in Present(j, names);
      assert Present(j, names[1..]) <= Present(j, names);
      NothingPresent(j, names[1..], f);
    }
  }

  lemma {:induction false} JhashSoundness(j: Json, f: int -> int)
    requires Parse(KJhash, j, f).Ok?
    ensures Sound(Parse(KJhash, j, f).value) <==> SoundJson(KJhash, j)
  {
    hide IntField;
    var m := Members(j).value;
    assert Parse(KJhash, j, f) == ParseFlat(KJhash, m, f);
    var e := ParseFlat(KJhash, m, f).value;
    if KExpr in m && m[KExpr].JObj? {
      assert e.exprs.Keys == m[KExpr].fields.Keys;
    }
  }

  lemma {:induction false} FlatIsSound(name: Key, j: Json, f: int -> int)
    requires name != KMatch && name != KConcat && name != KJhash && Parse(name, j, f).Ok?
    ensures Sound(Parse(name, j, f).value) <==> SoundJson(name, j)
  {
    ParsedUnderOwnName(name, j, f);
    hide Parse;
  }

  /* ---- Lists ---- */

  // The list form of SoundJson.
  predicate SoundList(j: Json) {
    j.JArr? ==> forall elem | elem in j.elems :: SoundMembers(elem)
  }

  ghost predicate AllSound(items: seq<Item>) {
    forall item | item in items :: Sound(item.any)
  }

  lemma {:induction false} ElemIsSound(elem: Json, f: int -> int, items: seq<Item>)
    requires FloatPassage(f) && DecodesElem(elem, f, items)
    ensures AllSound(items) <==> SoundMembers(elem)
    ensures forall item | item in items :: Sound(item.any) ==> CanonicalItem(item, f)
  {
    hide Parse, Decodes, Sound, SoundJson, Registered, Canonical;
    if elem.JObj? {
      forall item | item in items
        ensures Sound(item.any) <==> SoundJson(item.name, elem.fields[item.name])
        ensures Sound(item.any) ==> CanonicalItem(item, f)
      {
        var v := elem.fields[item.name];
        SoundDecodesAlike(item.name, v, f, item.any);
        if Sound(item.any) {
          ParsedUnderOwnName(item.name, v, f);
          ParsedIsCanonical(item.name, v, f);
        }
      }
      if AllSound(items) {
        forall k | k in RegisteredIn(elem)
          ensures SoundJson(k, elem.fields[k])
        {
          assert k in NamesOf(items);
          var item :| item in items && item.name == k;
        }
      }
      if SoundMembers(elem) {
        forall item | item in items
          ensures Sound(item.any)
        {
          assert item.name in NamesOf(items);
        }
      }
    }
  }

  lemma {:induction false} ElemsAreSound(elems: seq<Json>, f: int -> int, items: seq<Item>)
    requires FloatPassage(f) && DecodesElems(elems, f, items)
    ensures AllSound(items) <==> forall elem | elem in elems :: SoundMembers(elem)
    ensures forall item | item in items :: Sound(item.any) ==> CanonicalItem(item, f)
    decreases elems
  {
    hide DecodesElem, SoundMembers, Sound, CanonicalItem;
    if elems != [] {
      var n :| 0 <= n <= |items| && DecodesElem(elems[0], f, items[..n]) && DecodesElems(elems[1..], f, items[n..]);
      ElemIsSound(elems[0], f, items[..n]);
      ElemsAreSound(elems[1..], f, items[n..]);
      assert items == items[..n] + items[n..];
      assert forall elem :: elem in elems <==> elem == elems[0] || elem in elems[1..];
    }
  }

  // However a printed expression is decoded under its own name, it comes back as it was.
  lemma {:induction false} PrintedDecodesBack(e: Any, f: int -> int, r: Any)
    requires FloatPassage(f) && Canonical(e, f)
    requires Print(e).Ok? && Decodes(TypeName(e), Print(e).value, f, r)
    ensures r == e
  {
    hide Print, Parse, Decodes, Canonical, Sound, SoundJson;
    var j := Print(e).value;
    RoundTripsIffCanonical(e, f);
    ParseDecodes(TypeName(e), j, f);
    CanonicalIsSound(e, f);
    SoundDecodesAlike(TypeName(e), j, f, e);
    SoundDecodesAlike(TypeName(e), j, f, r);
  }

  lemma {:induction false} PrintedElemDecodesBack(item: Item, f: int -> int, items: seq<Item>)
    requires FloatPassage(f) && CanonicalItem(item, f) && PrintItem(item).Ok?
    requires DecodesElem(PrintItem(item).value, f, items)
    ensures items == [item]
  {
    hide Print, Decodes, Canonical, Registered;
    var j := PrintItem(item).value;
    TypeNameRegistered(item.any);
    assert j.fields == map[item.name := Print(item.any).value];
    assert RegisteredIn(j) == {item.name};
    assert |items| == 1 && items[0] in items && items[0].name in NamesOf(items);
    PrintedDecodesBack(item.any, f, items[0].any);
  }

  lemma {:induction false} PrintedElemsDecodeBack(items: seq<Item>, f: int -> int, r: seq<Item>)
    requires FloatPassage(f) && forall i | 0 <= i < |items| :: CanonicalItem(items[i], f) && PrintItem(items[i]).Ok?
    requires DecodesElems(PrintedItems(items), f, r)
    ensures r == items
    decreases items
  {
    hide PrintItem, CanonicalItem, DecodesElem;
    if items != [] {
      var elems := PrintedItems(items);
      var n :| 0 <= n <= |r| && DecodesElem(elems[0], f, r[..n]) && DecodesElems(elems[1..], f, r[n..]);
      assert elems[1..] == PrintedItems(items[1..]);
      PrintedElemDecodesBack(items[0], f, r[..n]);
      PrintedElemsDecodeBack(items[1..], f, r[n..]);
      assert r == r[..n] + r[n..];
    }
  }

  lemma {:induction false} OneMoreElem(elems: seq<Json>, f: int -> int, items: seq<Item>, elem: Json, more: seq<Item>)
    requires DecodesElems(elems, f, items) && DecodesElem(elem, f, more)
    ensures DecodesElems(elems + [elem], f, items + more)
    decreases elems
  {
    hide DecodesElem;
    var longer, all := elems + [elem], items + more;
    if elems == [] {
      assert longer[1..] == [] && all == more && all[..|more|] == more && all[|more|..] == [];
    } else {
      var n :| 0 <= n <= |items| && DecodesElem(elems[0], f, items[..n]) && DecodesElems(elems[1..], f, items[n..]);
      OneMoreElem(elems[1..], f, items[n..], elem, more);
      assert longer[1..] == elems[1..] + [elem];
      assert all[..n] == items[..n] && all[n..] == items[n..] + more;
    }
  }

  // Each element holds at most one expression, as nft prints it.
  predicate OneEach(j: Json) {
    j.JArr? ==> forall elem | elem in j.elems :: elem.JObj? ==> |RegisteredIn(elem)| <= 1
  }

  // Such a list, free of the defective forms, is decoded alike in every order.
  lemma {:induction false} OneOrder(j: Json, f: int -> int, items: seq<Item>)
    requires DecodesItems(j, f, items) && SoundList(j) && OneEach(j)
    ensures ParseItems(j, f) == Ok(items)
  {
    hide DecodesElems, ParseElems, SoundMembers;
    if j.JArr? {
      ElemsOneOrder(j.elems, f, items);
    }
  }

  lemma {:induction false} ElemsOneOrder(elems: seq<Json>, f: int -> int, items: seq<Item>)
    requires DecodesElems(elems, f, items)
    requires forall elem | elem in elems :: SoundMembers(elem) && (elem.JObj? ==> |RegisteredIn(elem)| <= 1)
    ensures ParseElems(elems, f) == Ok(items)
    decreases elems
  {
    hide DecodesElem, SoundMembers, ParseElem;
    if elems != [] {
      var n :| 0 <= n <= |items| && DecodesElem(elems[0], f, items[..n]) && DecodesElems(elems[1..], f, items[n..]);
      ElemOneOrder(elems[0], f, items[..n]);
      ElemsOneOrder(elems[1..], f, items[n..]);
      assert items == items[..n] + items[n..];
    }
  }

  lemma {:induction false} ElemOneOrder(elem: Json, f: int -> int, items: seq<Item>)
    requires DecodesElem(elem, f, items)
    requires SoundMembers(elem) && (elem.JObj? ==> |RegisteredIn(elem)| <= 1)
    ensures ParseElem(elem, f) == Ok(items)
  {
    hide Parse, ParseNames, Decodes, SoundJson, Registered;
    if elem.JObj? {
      forall item | item in items
        ensures Parse(item.name, elem.fields[item.name], f) == Ok(item.any)
      {
        assert item.name in NamesOf(items);
        SoundDecodesAlike(item.name, elem.fields[item.name], f, item.any);
      }
      ElemParses(elem, f, items);
      hide ParseElem, IsItemOf;
      ElemDecodes(elem, f);
      var parsed := ParseElem(elem, f).value;
      if items != [] {
        assert items[0] in items && items[0].name in NamesOf(items);
        assert parsed[0] in parsed && parsed[0].name in NamesOf(parsed);
        assert parsed[0].name == items[0].name by {
          OneMember(RegisteredIn(elem), parsed[0].name, items[0].name);
        }
        var k := items[0].name;
        SoundDecodesAlike(k, elem.fields[k], f, parsed[0].any);
        assert parsed[0] == items[0];
      }
      assert parsed == items;
    }
  }

  lemma OneMember(s: set<Key>, a: Key, b: Key)
    requires |s| <= 1 && a in s && b in s
    ensures a == b
  {
    SubsetSize({a, b}, s);
  }

  lemma {:induction false} ElemParses(elem: Json, f: int -> int, items: seq<Item>)
    requires elem.JObj? && NamesOf(items) == RegisteredIn(elem)
    requires forall item | item in items ::
      item.name in elem.fields && Parse(item.name, elem.fields[item.name], f) == Ok(item.any)
    ensures ParseElem(elem, f).Ok?
  {
    hide Parse, Registered;
    PresentIsRegistered(elem);
    NamesFail(elem, NAMES, f);
    forall k | k in NAMES && k in elem.fields
      ensures Parse(k, elem.fields[k], f).Ok?
    {
      assert k in Present(elem, NAMES);
      var item :| item in items && item.name == k;
    }
    hide ParseNames;
  }

  // A list is read back as `items` in every order that Go may choose.
  ghost predicate AlwaysReadAs(j: Json, f: int -> int, items: seq<Item>) {
    ParseItems(j, f).Ok? && forall r :: DecodesItems(j, f, r) ==> r == items
  }

  // For every list that is decoded, in whatever order: printing it gives a normal form, which is
  // always read back as the same list, exactly if the JSON was free of the defective forms.
  lemma {:induction false} PrintOfParseIsNormalIffSound(j: Json, f: int -> int, items: seq<Item>)
    requires FloatPassage(f) && DecodesItems(j, f, items)
    ensures PrintItems(items).Ok? && AlwaysReadAs(PrintItems(items).value, f, items) <==> SoundList(j)
  {
    hide ParseItems, DecodesElems, CanonicalItem, Sound, SoundMembers, PrintItem;
    if j.JArr? {
      ElemsAreSound(j.elems, f, items);
    }
    assert AllSound(items) <==> SoundList(j);
    ItemsRoundTripIffCanonical(items, f);
    if SoundList(j) {
      NormalForm(items, f);
    } else if PrintItems(items).Ok? && AlwaysReadAs(PrintItems(items).value, f, items) {
      ItemsDecode(PrintItems(items).value, f);
      CanonicalAreSound(items, f);
    }
  }

  lemma {:induction false} CanonicalAreSound(items: seq<Item>, f: int -> int)
    requires forall i | 0 <= i < |items| :: CanonicalItem(items[i], f)
    ensures AllSound(items)
  {
    forall item | item in items
      ensures Sound(item.any)
    {
      var i :| 0 <= i < |items| && items[i] == item;
      CanonicalIsSound(items[i].any, f);
    }
  }

  lemma {:induction false} NormalForm(items: seq<Item>, f: int -> int)
    requires FloatPassage(f) && forall item | item in items :: CanonicalItem(item, f)
    ensures PrintItems(items).Ok? && AlwaysReadAs(PrintItems(items).value, f, items)
  {
    hide DecodesElems, CanonicalItem, PrintItem, ParseElems;
    assert forall i | 0 <= i < |items| :: items[i] in items;
    ItemsRoundTripIffCanonical(items, f);
    var j := PrintItems(items).value;
    forall r | DecodesItems(j, f, r)
      ensures r == items
    {
      if items != [] {
        assert PrintItems(items) == Ok(JArr(PrintedItems(items)));
        PrintedElemsDecodeBack(items, f, r);
      }
    }
  }
}
