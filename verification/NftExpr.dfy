/**
 The nftables expression tree and its JSON form (utils/nft/parse.go, match.go and the leaf types
 beside them).

 Every number read from JSON passes through Go's `interface{}`, that is through a float64 and its
 shortest decimal text, once or more. That passage is the parameter `f` of the parser: any
 idempotent function that keeps the integers up to 2^53 in magnitude.
 */
module NftExpr {
  import opened Common

  // A member name: the ones the code mentions, and all the others.
  datatype Key =
    | KRange | KMeta | KCounter | KPayload | KLog | KMatch | KQueue | KSynproxy | KJump | KXt | KCt
    | KPrefix | KReject | KMangle | KJhash | KConcat
    | KKey | KBytes | KPackets | KProtocol | KField | KOp | KLeft | KRight | KNum | KMss | KWscale
    | KFlags | KTarget | KType | KName | KAddr | KLen | KExpr | KMod | KOffset | KValue | KData
    | KOther(text: string)

  datatype Json =
    | JNull
    | JBool(b: bool)
    | JNum(n: int)
    | JStr(s: string)
    | JArr(elems: seq<Json>)
    | JObj(fields: map<Key, Json>)

  type U8 = n: int | 0 <= n < 256
  type U16 = n: int | 0 <= n < TWO_16
  type U32 = n: int | 0 <= n < TWO_32
  type U64 = n: int | 0 <= n < TWO_64
  type I64 = n: int | -TWO_64 / 2 <= n < TWO_64 / 2

  // An expression. A nil slice, pointer or interface value is None.
  datatype Any =
    | Range(items: Option<seq<string>>)
    | Meta(key: string)
    | Counter(bytes: U64, packets: U64)
    | Payload(protocol: string, field: string)
    | Log(prefix: string)
    | Match(op: string, left: map<Key, Any>, right: Option<RightValue>)
    | Queue(num: I64)
    | SynProxy(mss: U16, wscale: U8, flags: U32)
    | Jump(target: string)
    | XT(xtType: string, name: string)
    | CT(ctKey: string)
    | Prefix(addr: string, len: I64)
    | Reject(rejectType: string, expr: string)
    | Mangle(mangleKey: Option<Any>, mangleValue: Option<Any>)
    | Jhash(mod: I64, offset: I64, exprs: map<Key, Option<Any>>)
    | Concat(data: seq<Item>)

  // One element of an ExprData: a Go map with a single entry.
  datatype Item = Item(name: Key, any: Any)

  datatype RightValue = RightValue(anys: map<Key, Any>, data: Json)

  const NAMES: seq<Key> := [
    KRange, KMeta, KCounter, KPayload, KLog, KMatch, KQueue, KSynproxy, KJump,
    KXt, KCt, KPrefix, KReject, KMangle, KJhash, KConcat]

  // The place of a name in NAMES.
  function Position(k: Key): nat {
    match k
    case KRange => 0 case KMeta => 1 case KCounter => 2 case KPayload => 3 case KLog => 4
    case KMatch => 5 case KQueue => 6 case KSynproxy => 7 case KJump => 8 case KXt => 9
    case KCt => 10 case KPrefix => 11 case KReject => 12 case KMangle => 13 case KJhash => 14
    case KConcat => 15
    case _ => 16
  }

  // Whether exprFromName knows the name.
  predicate Registered(k: Key) {
    Position(k) < 16
  }

  function TypeName(e: Any): Key {
    match e
    case Range(_) => KRange
    case Meta(_) => KMeta
    case Counter(_, _) => KCounter
    case Payload(_, _) => KPayload
    case Log(_) => KLog
    case Match(_, _, _) => KMatch
    case Queue(_) => KQueue
    case SynProxy(_, _, _) => KSynproxy
    case Jump(_) => KJump
    case XT(_, _) => KXt
    case CT(_) => KCt
    case Prefix(_, _) => KPrefix
    case Reject(_, _) => KReject
    case Mangle(_, _) => KMangle
    case Jhash(_, _, _) => KJhash
    case Concat(_) => KConcat
  }

  ghost predicate FloatPassage(f: int -> int) {
    && (forall n :: -0x20_0000_0000_0000 <= n <= 0x20_0000_0000_0000 ==> f(n) == n)
    && (forall n {:trigger f(f(n))} :: f(f(n)) == f(n))
  }

  // A JSON value after it has been an interface{}.
  function Refloat(j: Json, f: int -> int): Json {
    match j
    case JNum(n) => JNum(f(n))
    case JArr(elems) => JArr(seq(|elems|, i requires 0 <= i < |elems| => Refloat(elems[i], f)))
    case JObj(fields) => JObj(map k | k in fields :: Refloat(fields[k], f))
    case _ => j
  }

  // Every number in the value is one that survives.
  predicate Exact(j: Json, f: int -> int) {
    match j
    case JNum(n) => f(n) == n
    case JArr(elems) => forall i | 0 <= i < |elems| :: Exact(elems[i], f)
    case JObj(fields) => forall k | k in fields :: Exact(fields[k], f)
    case _ => true
  }

  // Numbers change by f, and nothing else does: not a string, a boolean or null, not the length of a
  // list and not the names of an object.
  lemma RefloatChangesNumbersOnly(j: Json, f: int -> int)
    ensures j.JNull? || j.JBool? || j.JStr? ==> Refloat(j, f) == j
    ensures j.JNum? ==> Refloat(j, f) == JNum(f(j.n))
    ensures j.JArr? ==> Refloat(j, f).JArr? && |Refloat(j, f).elems| == |j.elems|
    ensures j.JArr? ==> forall i :: 0 <= i < |j.elems| ==> Refloat(j, f).elems[i] == Refloat(j.elems[i], f)
    ensures j.JObj? ==> Refloat(j, f).JObj? && Refloat(j, f).fields.Keys == j.fields.Keys
    ensures j.JObj? ==> forall k :: k in j.fields ==> Refloat(j, f).fields[k] == Refloat(j.fields[k], f)
  {
  }

  // Plain data survives unchanged exactly if all its numbers do.
  lemma {:induction false} RefloatKeepsIffExact(j: Json, f: int -> int)
    ensures Refloat(j, f) == j <==> Exact(j, f)
    decreases j
  {
    match j
    case JArr(elems) =>
      forall i | 0 <= i < |elems|
        ensures Refloat(elems[i], f) == elems[i] <==> Exact(elems[i], f)
      {
        RefloatKeepsIffExact(elems[i], f);
      }
      var r := Refloat(j, f);
      assert forall i :: 0 <= i < |elems| ==> r.elems[i] == Refloat(elems[i], f);
      if Exact(j, f) {
        assert r.elems == elems;
      }
    case JObj(fields) =>
      forall k | k in fields
        ensures Refloat(fields[k], f) == fields[k] <==> Exact(fields[k], f)
      {
        RefloatKeepsIffExact(fields[k], f);
      }
      var r := Refloat(j, f);
      assert forall k :: k in fields ==> r.fields[k] == Refloat(fields[k], f);
      if Exact(j, f) {
        assert r.fields == fields;
      }
    case _ =>
  }

  /* ---- Printing: the ReallyValue methods. Failed stands for a nil dereference. ---- */

  function StrObj(k1: Key, v1: string, k2: Key, v2: string): Json {
    JObj(map[k1 := JStr(v1), k2 := JStr(v2)])
  }

  function Print(e: Any): Result<Json>
    decreases e
  {
    match e
    case Range(None) => Ok(JNull)
    case Range(Some(items)) => Ok(JArr(seq(|items|, i requires 0 <= i < |items| => JStr(items[i]))))
    case Meta(key) => Ok(JObj(map[KKey := JStr(key)]))
    case Counter(bytes, packets) => Ok(JObj(map[KBytes := JNum(bytes), KPackets := JNum(packets)]))
    case Payload(protocol, field) => Ok(StrObj(KProtocol, protocol, KField, field))
    case Log(prefix) => Ok(JObj(map[KPrefix := JStr(prefix)]))
    case Match(op, left, right) =>
      if right == None || (exists k | k in left :: Print(left[k]).Failed?) || PrintRight(right.value).Failed?
      then Failed
      else
        var res := map[KOp := JStr(op), KRight := PrintRight(right.value).value];
        if left == map[] then Ok(JObj(res))
        else Ok(JObj(res[KLeft := JObj(map k | k in left :: Print(left[k]).value)]))
    case Queue(num) => Ok(JObj(map[KNum := JNum(num)]))
    case SynProxy(mss, wscale, flags) =>
      Ok(JObj(map[KMss := JNum(mss), KWscale := JNum(wscale), KFlags := JNum(flags)]))
    case Jump(target) => Ok(JObj(map[KTarget := JStr(target)]))
    case XT(xtType, name) => Ok(StrObj(KType, xtType, KName, name))
    case CT(key) => Ok(JObj(map[KKey := JStr(key)]))
    case Prefix(addr, len) => Ok(JObj(map[KAddr := JStr(addr), KLen := JNum(len)]))
    case Reject(rejectType, expr) => Ok(StrObj(KType, rejectType, KExpr, expr))
    case Mangle(key, value) =>
      if key == None || value == None || Print(key.value).Failed? || Print(value.value).Failed? then Failed
      else Ok(JObj(map[KKey := Print(key.value).value, KValue := Print(value.value).value]))
    case Jhash(mod, offset, exprs) =>
      // The nested entries are stored beside "expr", not under it.
      if exists k | k in exprs :: exprs[k] == None || Print(exprs[k].value).Failed? then Failed
      else Ok(JObj(map[KMod := JNum(mod), KOffset := JNum(offset), KExpr := JObj(map[])]
                   + (map k | k in exprs :: Print(exprs[k].value).value)))
    case Concat(data) => PrintItems(data)
  }

  function PrintRight(r: RightValue): Result<Json>
    decreases r
  {
    if r.anys == map[] then Ok(r.data)
    else if exists k | k in r.anys :: Print(r.anys[k]).Failed? then Failed
    else Ok(JObj(map k | k in r.anys :: Print(r.anys[k]).value))
  }

  function PrintItem(item: Item): Result<Json>
    decreases item
  {
    var v := Print(item.any);
    if v.Failed? then Failed else Ok(JObj(map[item.name := v.value]))
  }

  // ExprData.ReallyValue and ExprData.MarshalJSON: an empty list prints as null.
  function PrintItems(items: seq<Item>): Result<Json>
    decreases items
  {
    if items == [] then Ok(JNull)
    else if exists i | 0 <= i < |items| :: PrintItem(items[i]).Failed? then Failed
    else Ok(JArr(seq(|items|, i requires 0 <= i < |items| => PrintItem(items[i]).value)))
  }

  /* ---- Parsing: the UnmarshalJSON methods. Failed stands for an error or a panic. ---- */

  // The members of a JSON object as encoding/json decodes them into a struct: null is no object
  // at all and leaves every field at its zero value.
  function Members(j: Json): Result<map<Key, Json>> {
    match j
    case JNull => Ok(map[])
    case JObj(fields) => Ok(fields)
    case _ => Failed
  }

  function StrField(m: map<Key, Json>, k: Key): Result<string> {
    if k !in m || m[k] == JNull then Ok("")
    else if m[k].JStr? then Ok(m[k].s)
    else Failed
  }

  // An integer field of a type that holds lo, ..., hi.
  function IntField(m: map<Key, Json>, k: Key, lo: int, hi: int, f: int -> int): (r: Result<int>)
    requires lo <= 0 <= hi
    ensures r.Ok? ==> lo <= r.value <= hi
  {
    if k !in m || m[k] == JNull then Ok(0)
    else if m[k].JNum? && lo <= f(m[k].n) <= hi then Ok(f(m[k].n))
    else Failed
  }

  function U64Field(m: map<Key, Json>, k: Key, f: int -> int): Result<int> {
    IntField(m, k, 0, TWO_64 - 1, f)
  }

  function I64Field(m: map<Key, Json>, k: Key, f: int -> int): Result<int> {
    IntField(m, k, -TWO_64 / 2, TWO_64 / 2 - 1, f)
  }

  function ParseRange(j: Json): Result<Any> {
    match j
    case JNull => Ok(Range(None))
    case JArr(elems) =>
      if exists x | x in elems :: !x.JStr? && !x.JNull? then Failed
      else Ok(Range(Some(seq(|elems|, i requires 0 <= i < |elems| =>
                               if elems[i].JStr? then elems[i].s else ""))))
    case _ => Failed
  }

  function ParseQueue(j: Json, f: int -> int): Result<Any> {
    match j
    case JObj(m) =>
      var num := I64Field(m, KNum, f);
      if num.Failed? then Failed else Ok(Queue(num.value))
    case JNum(n) => if -TWO_64 / 2 <= f(n) < TWO_64 / 2 then Ok(Queue(f(n))) else Failed
    case _ => Failed
  }

  function Ok1(s: Result<string>, c: string -> Any): Result<Any> {
    if s.Failed? then Failed else Ok(c(s.value))
  }

  function Ok2(s: Result<string>, t: Result<string>, c: (string, string) -> Any): Result<Any> {
    if s.Failed? || t.Failed? then Failed else Ok(c(s.value, t.value))
  }

  // The types that hold no other expressions, decoded from the members of an object.
  function ParseFlat(name: Key, m: map<Key, Json>, f: int -> int): Result<Any> {
    match name
    case KMeta => Ok1(StrField(m, KKey), s => Meta(s))
    case KCounter =>
      var bytes, packets := U64Field(m, KBytes, f), U64Field(m, KPackets, f);
      if bytes.Failed? || packets.Failed? then Failed else Ok(Counter(bytes.value, packets.value))
    case KPayload => Ok2(StrField(m, KProtocol), StrField(m, KField), (s, t) => Payload(s, t))
    case KLog => Ok1(StrField(m, KPrefix), s => Log(s))
    case KSynproxy =>
      var mss, wscale := IntField(m, KMss, 0, TWO_16 - 1, f), IntField(m, KWscale, 0, 255, f);
      var flags := IntField(m, KFlags, 0, TWO_32 - 1, f);
      if mss.Failed? || wscale.Failed? || flags.Failed? then Failed
      else Ok(SynProxy(mss.value, wscale.value, flags.value))
    case KJump => Ok1(StrField(m, KTarget), s => Jump(s))
    case KXt => Ok2(StrField(m, KType), StrField(m, KName), (s, t) => XT(s, t))
    case KCt => Ok1(StrField(m, KKey), s => CT(s))
    case KPrefix =>
      var addr, len := StrField(m, KAddr), I64Field(m, KLen, f);
      if addr.Failed? || len.Failed? then Failed else Ok(Prefix(addr.value, len.value))
    case KReject => Ok2(StrField(m, KType), StrField(m, KExpr), (s, t) => Reject(s, t))
    case KMangle =>
      // An interface field accepts nothing but null.
      if (KKey in m && m[KKey] != JNull) || (KValue in m && m[KValue] != JNull) then Failed
      else Ok(Mangle(None, None))
    case KJhash =>
      var mod, offset := I64Field(m, KMod, f), I64Field(m, KOffset, f);
      var exprs := if KExpr in m then Members(m[KExpr]) else Ok(map[]);
      if mod.Failed? || offset.Failed? || exprs.Failed? || (exists k | k in exprs.value :: exprs.value[k] != JNull)
      then Failed
      else Ok(Jhash(mod.value, offset.value, map k | k in exprs.value :: None))
    case _ => Failed
  }

  // json.Unmarshal of j into exprFromName(name), for a registered name.
  function Parse(name: Key, j: Json, f: int -> int): Result<Any>
    decreases j, 3
  {
    if name == KRange then ParseRange(j)
    else if name == KQueue then ParseQueue(j, f)
    else if name == KMatch then ParseMatch(j, f)
    else if name == KConcat then
      match j
      case JNull => Ok(Concat([]))
      case JObj(m) =>
        if KData !in m then Ok(Concat([]))
        else
          var data := ParseItems(m[KData], f);
          if data.Failed? then Failed else Ok(Concat(data.value))
      case _ => Failed
    else
      var m := Members(j);
      if m.Failed? then Failed else ParseFlat(name, m.value, f)
  }

  // The entries of an object that have a registered name.
  function ParseMap(j: Json, f: int -> int): Result<map<Key, Any>>
    requires j.JObj?
    decreases j, 0
  {
    if exists k | k in j.fields && Registered(k) :: Parse(k, j.fields[k], f).Failed? then Failed
    else Ok(map k | k in j.fields && Registered(k) :: Parse(k, j.fields[k], f).value)
  }

  function ParseRight(j: Json, f: int -> int): Result<RightValue>
    decreases j, 1
  {
    if j.JObj? then
      var anys := ParseMap(j, f);
      if anys.Failed? then Failed else Ok(RightValue(anys.value, JNull))
    else Ok(RightValue(map[], Refloat(j, f)))
  }

  function ParseLeft(j: Json, f: int -> int): Result<map<Key, Any>>
    requires j.JObj?
    decreases j, 1
  {
    if KLeft !in j.fields || j.fields[KLeft] == JNull then Ok(map[])
    else if !j.fields[KLeft].JObj? then Failed
    else ParseMap(j.fields[KLeft], f)
  }

  function ParseMatch(j: Json, f: int -> int): Result<Any>
    decreases j, 2
  {
    if !j.JObj? || KOp !in j.fields || !j.fields[KOp].JStr? then Failed
    else
      var right := if KRight in j.fields then ParseRight(j.fields[KRight], f) else Ok(RightValue(map[], JNull));
      var left := ParseLeft(j, f);
      if right.Failed? || left.Failed? then Failed
      else Ok(Match(j.fields[KOp].s, left.value,
                    if KRight in j.fields then Some(right.value) else None))
  }

  // ExprData.UnmarshalJSON. Go visits the members of an element in no fixed order; here it is
  // the order of NAMES.
  function ParseItems(j: Json, f: int -> int): Result<seq<Item>>
    decreases j, 1
  {
    match j
    case JNull => Ok([])
    case JArr(elems) => ParseElems(elems, f)
    case _ => Failed
  }

  function ParseElems(elems: seq<Json>, f: int -> int): Result<seq<Item>>
    decreases elems, 0
  {
    if elems == [] then Ok([])
    else
      var first, rest := ParseElem(elems[0], f), ParseElems(elems[1..], f);
      if first.Failed? || rest.Failed? then Failed else Ok(first.value + rest.value)
  }

  function ParseElem(j: Json, f: int -> int): Result<seq<Item>>
    decreases j, |NAMES| + 1
  {
    if j.JNull? then Ok([])
    else if !j.JObj? then Failed
    else ParseNames(j, NAMES, f)
  }

  function ParseNames(j: Json, names: seq<Key>, f: int -> int): Result<seq<Item>>
    requires j.JObj?
    decreases j, |names|
  {
    if names == [] then Ok([])
    else
      var rest := ParseNames(j, names[1..], f);
      if rest.Failed? then Failed
      else if names[0] !in j.fields then rest
      else
        var first := Parse(names[0], j.fields[names[0]], f);
        if first.Failed? then Failed else Ok([Item(names[0], first.value)] + rest.value)
  }

  /* ---- When parsing undoes printing ---- */

  // Parsing what an expression prints gives the expression back.
  ghost predicate RoundTrips(e: Any, f: int -> int) {
    Print(e).Ok? && Parse(TypeName(e), Print(e).value, f) == Ok(e)
  }

  ghost predicate Canonical(e: Any, f: int -> int) {
    match e
    case Counter(bytes, packets) => f(bytes) == bytes && f(packets) == packets
    case Queue(num) => f(num) == num
    case Prefix(_, len) => f(len) == len
    case Match(_, left, right) =>
      && (forall k | k in left :: TypeName(left[k]) == k && Canonical(left[k], f))
      && right.Some?
      && CanonicalRight(right.value, f)
    case Mangle(_, _) => false
    case Jhash(mod, offset, exprs) => exprs == map[] && f(mod) == mod && f(offset) == offset
    case Concat(data) => data == []
    case _ => true
  }

  // A right side is either expressions under their own names, or plain data that is not an object.
  ghost predicate CanonicalRight(r: RightValue, f: int -> int) {
    if r.anys == map[] then !r.data.JObj? && Exact(r.data, f)
    else
      && r.data == JNull
      && (forall k | k in r.anys :: TypeName(r.anys[k]) == k && Canonical(r.anys[k], f))
  }

  ghost predicate CanonicalMap(m: map<Key, Any>, f: int -> int) {
    forall k | k in m :: TypeName(m[k]) == k && Canonical(m[k], f)
  }

  lemma {:induction false} FlatUnderOwnName(name: Key, m: map<Key, Json>, f: int -> int)
    requires ParseFlat(name, m, f).Ok?
    ensures TypeName(ParseFlat(name, m, f).value) == name
  {
    hide StrField, IntField, U64Field, I64Field, Members;
    match name
    case KMeta =>
    case KCounter =>
    case KPayload =>
    case KLog =>
    case KSynproxy =>
    case KJump =>
    case KXt =>
    case KCt =>
    case KPrefix =>
    case KReject =>
    case KMangle =>
    case KJhash =>
    case _ =>
  }

  // exprFromName and TypeName agree.
  lemma {:induction false} ParsedUnderOwnName(name: Key, j: Json, f: int -> int)
    requires Parse(name, j, f).Ok?
    ensures TypeName(Parse(name, j, f).value) == name
  {
    hide ParseFlat, ParseItems, ParseMap, ParseLeft, ParseRight;
    if Members(j).Ok? && ParseFlat(name, Members(j).value, f).Ok? {
      FlatUnderOwnName(name, Members(j).value, f);
    }
  }

  function PrintedMap(m: map<Key, Any>): Json
    requires forall k | k in m :: Print(m[k]).Ok?
  {
    JObj(map k | k in m :: Print(m[k]).value)
  }

  lemma {:induction false} MapRoundTrips(m: map<Key, Any>, f: int -> int)
    requires forall k | k in m :: Print(m[k]).Ok?
    requires forall k | k in m :: RoundTrips(m[k], f) <==> Canonical(m[k], f)
    ensures ParseMap(PrintedMap(m), f) == Ok(m) <==> CanonicalMap(m, f)
  {
    hide Print, Parse, Canonical;
    var j := PrintedMap(m);
    if CanonicalMap(m, f) {
      forall k | k in m
        ensures Registered(k) && Parse(k, j.fields[k], f) == Ok(m[k])
      {
        assert RoundTrips(m[k], f);
      }
      assert ParseMap(j, f).Ok? && ParseMap(j, f).value == m;
    }
    if ParseMap(j, f) == Ok(m) {
      forall k | k in m
        ensures TypeName(m[k]) == k && Canonical(m[k], f)
      {
        assert k in ParseMap(j, f).value;
        assert Parse(k, j.fields[k], f) == Ok(m[k]);
        ParsedUnderOwnName(k, j.fields[k], f);
        assert RoundTrips(m[k], f);
      }
    }
  }

  // A match: its left side prints under "left" unless it is empty, its right side under "right".
  lemma {:induction false} MatchRoundTrips(e: Any, f: int -> int)
    requires e.Match? && e.right.Some?
    requires forall k | k in e.left :: Print(e.left[k]).Ok?
    requires PrintRight(e.right.value).Ok?
    ensures
      var left, right := PrintedMap(e.left), PrintRight(e.right.value).value;
      RoundTrips(e, f) <==> ParseMap(left, f) == Ok(e.left) && ParseRight(right, f) == Ok(e.right.value)
  {
    hide PrintRight, ParseRight, ParseMap;
    var left, right := PrintedMap(e.left), PrintRight(e.right.value).value;
    assert Print(e).Ok?;
    var j := Print(e).value;
    assert j.fields[KOp] == JStr(e.op) && j.fields[KRight] == right;
    if e.left == map[] {
      assert left.fields == map[];
      EmptyMapParses(f);
      assert ParseLeft(j, f) == Ok(map[]);
    } else {
      assert j.fields[KLeft] == left;
      assert ParseLeft(j, f) == ParseMap(left, f);
    }
    assert Parse(KMatch, j, f) == ParseMatch(j, f);
    assert ParseMatch(j, f) == Ok(e) <==> ParseMap(left, f) == Ok(e.left) && ParseRight(right, f) == Ok(e.right.value);
  }

  lemma {:induction false} EmptyMapParses(f: int -> int)
    ensures ParseMap(JObj(map[]), f) == Ok(map[])
  {
    var j := JObj(map[]);
    assert ParseMap(j, f).Ok?;
    assert ParseMap(j, f).value == map[];
  }

  lemma {:induction false} RightRoundTrips(r: RightValue, f: int -> int)
    requires forall k | k in r.anys :: RoundTrips(r.anys[k], f) <==> Canonical(r.anys[k], f)
    requires PrintRight(r).Ok?
    ensures ParseRight(PrintRight(r).value, f) == Ok(r) <==> CanonicalRight(r, f)
  {
    hide Print, Parse, Canonical, ParseMap;
    RefloatKeepsIffExact(r.data, f);
    if r.anys != map[] {
      MapRoundTrips(r.anys, f);
      assert PrintRight(r).value == PrintedMap(r.anys);
    }
  }

  // For every expression: parsing undoes printing exactly when the expression is canonical.
  lemma {:induction false} RoundTripsIffCanonical(e: Any, f: int -> int)
    requires FloatPassage(f)
    ensures RoundTrips(e, f) <==> Canonical(e, f)
    decreases e
  {
    match e
    case Match(_, left, right) =>
      forall k | k in left
        ensures RoundTrips(left[k], f) <==> Canonical(left[k], f)
      {
        RoundTripsIffCanonical(left[k], f);
      }
      if right.Some? {
        forall k | k in right.value.anys
          ensures RoundTrips(right.value.anys[k], f) <==> Canonical(right.value.anys[k], f)
        {
          RoundTripsIffCanonical(right.value.anys[k], f);
        }
        MatchCase(e, f);
      }
    case Concat(data) => ConcatCase(data, f);
    case Jhash(_, _, _) => JhashCase(e, f);
    case Mangle(_, _) => MangleCase(e, f);
    case Range(_) => RangeCase(e, f);
    case _ => FlatCase(e, f);
  }

  lemma {:induction false} MatchPrints(e: Any)
    requires e.Match? && e.right.Some?
    requires forall k | k in e.left :: Print(e.left[k]).Ok?
    requires forall k | k in e.right.value.anys :: Print(e.right.value.anys[k]).Ok?
    ensures Print(e).Ok?
  {
    assert PrintRight(e.right.value).Ok?;
  }

  lemma {:induction false} MatchCase(e: Any, f: int -> int)
    requires e.Match? && e.right.Some?
    requires forall k | k in e.left :: RoundTrips(e.left[k], f) <==> Canonical(e.left[k], f)
    requires forall k | k in e.right.value.anys ::
      RoundTrips(e.right.value.anys[k], f) <==> Canonical(e.right.value.anys[k], f)
    ensures RoundTrips(e, f) <==> Canonical(e, f)
  {
    hide Parse, ParseMap, ParseRight;
    if Canonical(e, f) {
      forall k | k in e.left
        ensures Print(e.left[k]).Ok?
      {
        assert RoundTrips(e.left[k], f);
      }
      forall k | k in e.right.value.anys
        ensures Print(e.right.value.anys[k]).Ok?
      {
        assert CanonicalRight(e.right.value, f) && e.right.value.anys != map[];
        assert Canonical(e.right.value.anys[k], f);
      }
      MatchPrints(e);
    }
    if Print(e).Ok? {
      MatchRoundTrips(e, f);
      MapRoundTrips(e.left, f);
      RightRoundTrips(e.right.value, f);
    }
  }

  lemma {:induction false} ConcatCase(data: seq<Item>, f: int -> int)
    ensures RoundTrips(Concat(data), f) <==> data == []
  {
    hide ParseItems, ParseFlat, ParseMap;
    var p := Print(Concat(data));
    assert p == PrintItems(data);
    if data == [] {
      assert Parse(KConcat, JNull, f) == Ok(Concat([]));
    } else if p.Ok? {
      assert Parse(KConcat, p.value, f) == Failed;
    }
  }

  lemma {:induction false} JhashCase(e: Any, f: int -> int)
    requires e.Jhash?
    ensures RoundTrips(e, f) <==> Canonical(e, f)
  {
    hide ParseItems, ParseMap, ParseRight, ParseLeft, ParseMatch, ParseFlat;
    var p := Print(e);
    if e.exprs == map[] {
      JhashPrints(e);
      assert Parse(KJhash, p.value, f) == ParseFlat(KJhash, p.value.fields, f);
      JhashParsed(p.value.fields, f);
    } else if p.Ok? {
      // What is parsed back has only nil entries, and printing a nil entry fails.
      var k :| k in e.exprs;
      assert e.exprs[k] != None;
      assert Parse(KJhash, p.value, f) == ParseFlat(KJhash, p.value.fields, f);
      JhashParsed(p.value.fields, f);
    }
  }

  lemma {:induction false} JhashPrints(e: Any)
    requires e.Jhash? && e.exprs == map[]
    ensures Print(e) == Ok(JObj(map[KMod := JNum(e.mod), KOffset := JNum(e.offset), KExpr := JObj(map[])]))
  {
    assert Print(e).Ok?;
    assert Print(e).value.fields == map[KMod := JNum(e.mod), KOffset := JNum(e.offset), KExpr := JObj(map[])];
  }

  lemma {:induction false} JhashParsed(m: map<Key, Json>, f: int -> int)
    ensures
      var r := ParseFlat(KJhash, m, f);
      && (r.Ok? ==> r.value.Jhash? && forall k | k in r.value.exprs :: r.value.exprs[k] == None)
      && (KExpr in m && m[KExpr] == JObj(map[]) ==>
            var mod, offset := I64Field(m, KMod, f), I64Field(m, KOffset, f);
            r == if mod.Ok? && offset.Ok? then Ok(Jhash(mod.value, offset.value, map[])) else Failed)
  {
    hide IntField;
    if KExpr in m && m[KExpr] == JObj(map[]) {
      var none: map<Key, Option<Any>> := map k | k in Members(m[KExpr]).value :: None;
      assert none == map[];
    }
  }

  lemma {:induction false} MangleCase(e: Any, f: int -> int)
    requires e.Mangle?
    ensures !RoundTrips(e, f)
  {
    hide ParseItems, ParseMap;
  }

  lemma {:induction false} RangeCase(e: Any, f: int -> int)
    requires e.Range?
    ensures RoundTrips(e, f)
  {
    if e.items.Some? {
      var elems := Print(e).value.elems;
      assert seq(|elems|, i requires 0 <= i < |elems| => if elems[i].JStr? then elems[i].s else "") == e.items.value;
    }
  }

  lemma {:induction false} FlatCase(e: Any, f: int -> int)
    requires FloatPassage(f)
    requires !e.Match? && !e.Concat? && !e.Jhash? && !e.Mangle? && !e.Range?
    ensures RoundTrips(e, f) <==> Canonical(e, f)
  {
    hide ParseItems, ParseMap, ParseRight, ParseLeft, ParseMatch, ParseFlat;
    if e.Queue? {
      assert Parse(KQueue, Print(e).value, f) == ParseQueue(Print(e).value, f);
    } else {
      var j := Print(e).value;
      assert Parse(TypeName(e), j, f) == ParseFlat(TypeName(e), j.fields, f);
      if e.Counter? || e.SynProxy? || e.Prefix? {
        NumbersParsed(e, f);
      } else {
        StringsParsed(e, f);
      }
    }
  }

  lemma {:induction false} NumbersParsed(e: Any, f: int -> int)
    requires FloatPassage(f)
    requires e.Counter? || e.SynProxy? || e.Prefix?
    ensures Print(e).Ok? && Print(e).value.JObj?
    ensures ParseFlat(TypeName(e), Print(e).value.fields, f) == Ok(e) <==> Canonical(e, f)
  {
  }

  lemma {:induction false} StringsParsed(e: Any, f: int -> int)
    requires e.Meta? || e.Payload? || e.Log? || e.Jump? || e.XT? || e.CT? || e.Reject?
    ensures Print(e).Ok? && Print(e).value.JObj?
    ensures ParseFlat(TypeName(e), Print(e).value.fields, f) == Ok(e)
  {
    hide IntField;
  }

  /* ---- Lists of expressions ---- */

  ghost predicate CanonicalItem(item: Item, f: int -> int) {
    TypeName(item.any) == item.name && Canonical(item.any, f)
  }

  ghost predicate Distinct(names: seq<Key>) {
    forall i, j :: 0 <= i < j < |names| ==> names[i] != names[j]
  }

  lemma {:induction false} NamesByPosition()
    ensures forall i :: 0 <= i < |NAMES| ==> Position(NAMES[i]) == i
  {
    assert Position(NAMES[0]) == 0 && Position(NAMES[1]) == 1 && Position(NAMES[2]) == 2 && Position(NAMES[3]) == 3;
    assert Position(NAMES[4]) == 4 && Position(NAMES[5]) == 5 && Position(NAMES[6]) == 6 && Position(NAMES[7]) == 7;
    assert Position(NAMES[8]) == 8 && Position(NAMES[9]) == 9 && Position(NAMES[10]) == 10 && Position(NAMES[11]) == 11;
    assert Position(NAMES[12]) == 12 && Position(NAMES[13]) == 13;
    assert Position(NAMES[14]) == 14 && Position(NAMES[15]) == 15;
  }

  lemma {:induction false} NamesAreDistinct()
    ensures Distinct(NAMES)
  {
    hide Position;
    NamesByPosition();
    var names := NAMES;
    assert forall i, j :: 0 <= i < j < |names| ==> Position(names[i]) != Position(names[j]);
  }

  // The names in visiting order are the registered names.
  lemma {:induction false} NamesAreRegistered(k: Key)
    ensures k in NAMES <==> Registered(k)
  {
    if Registered(k) {
      AtPosition(k);
    }
    NamesByPosition();
    hide Position;
  }

  lemma {:induction false} AtPosition(k: Key)
    requires Registered(k)
    ensures NAMES[Position(k)] == k
  {
  }

  // What an object contributes: its registered members, each decoded under its own name.
  ghost predicate IsItemOf(item: Item, j: Json, names: seq<Key>, f: int -> int)
    requires j.JObj?
  {
    item.name in names && item.name in j.fields && Parse(item.name, j.fields[item.name], f) == Ok(item.any)
  }

  function Present(j: Json, names: seq<Key>): set<Key>
    requires j.JObj?
  {
    set k | k in names && k in j.fields
  }

  lemma {:induction false} NamesFail(j: Json, names: seq<Key>, f: int -> int)
    requires j.JObj?
    ensures ParseNames(j, names, f).Failed?
       <==> exists k :: k in names && k in j.fields && Parse(k, j.fields[k], f).Failed?
    decreases names
  {
    hide Parse;
    if names != [] {
      NamesFail(j, names[1..], f);
      assert names[0] in names;
      assert forall k :: k in names <==> k == names[0] || k in names[1..];
    }
  }

  lemma {:induction false} NamesItems(j: Json, names: seq<Key>, f: int -> int)
    requires j.JObj? && ParseNames(j, names, f).Ok?
    ensures forall item :: item in ParseNames(j, names, f).value <==> IsItemOf(item, j, names, f)
    decreases names
  {
    hide Parse;
    if names != [] {
      NamesItems(j, names[1..], f);
      assert forall k :: k in names <==> k == names[0] || k in names[1..];
    }
  }

  lemma {:induction false} NamesCount(j: Json, names: seq<Key>, f: int -> int)
    requires j.JObj? && Distinct(names) && ParseNames(j, names, f).Ok?
    ensures |ParseNames(j, names, f).value| == |Present(j, names)|
    decreases names
  {
    hide Parse;
    if names == [] {
      assert Present(j, names) == {};
    } else {
      var rest := names[1..];
      NamesCount(j, rest, f);
      assert names[0] !in rest;
      assert Present(j, names) == if names[0] in j.fields then {names[0]} + Present(j, rest) else Present(j, rest);
    }
  }

  function PrintedItems(items: seq<Item>): seq<Json>
    requires forall i | 0 <= i < |items| :: PrintItem(items[i]).Ok?
  {
    seq(|items|, i requires 0 <= i < |items| => PrintItem(items[i]).value)
  }

  // A printed item is read back as itself, as something else, or not at all.
  lemma {:induction false} ItemRoundTrips(item: Item, f: int -> int)
    requires FloatPassage(f) && PrintItem(item).Ok?
    ensures
      var r := ParseElem(PrintItem(item).value, f);
      && (r == Ok([item]) <==> CanonicalItem(item, f))
      && (r.Ok? ==> |r.value| <= 1)
  {
    hide Print, Parse, Canonical, ParseNames;
    var j := PrintItem(item).value;
    var k, v := item.name, Print(item.any).value;
    assert j.fields == map[k := v];
    NamesAreRegistered(k);
    NamesAreDistinct();
    NamesFail(j, NAMES, f);
    RoundTripsIffCanonical(item.any, f);
    var r := ParseElem(j, f);
    assert r == ParseNames(j, NAMES, f);
    if r.Ok? {
      NamesItems(j, NAMES, f);
      NamesCount(j, NAMES, f);
      assert Present(j, NAMES) == if k in NAMES then {k} else {};
    }
    if CanonicalItem(item, f) {
      TypeNameRegistered(item.any);
      assert Parse(k, v, f) == Ok(item.any);
      assert r.Ok? && IsItemOf(item, j, NAMES, f);
      assert r.value[0] in r.value && IsItemOf(r.value[0], j, NAMES, f);
      assert r.value == [item];
    }
    if r == Ok([item]) {
      assert item in r.value;
      assert Parse(k, v, f) == Ok(item.any);
      ParsedUnderOwnName(k, v, f);
      assert RoundTrips(item.any, f);
    }
  }

  lemma {:induction false} TypeNameRegistered(e: Any)
    ensures Registered(TypeName(e))
  {
  }

  lemma {:induction false} ElemsRoundTrip(items: seq<Item>, f: int -> int)
    requires FloatPassage(f)
    requires forall i | 0 <= i < |items| :: PrintItem(items[i]).Ok?
    ensures
      var r := ParseElems(PrintedItems(items), f);
      && (r == Ok(items) <==> forall i | 0 <= i < |items| :: CanonicalItem(items[i], f))
      && (r.Ok? ==> |r.value| <= |items|)
    decreases items
  {
    hide PrintItem, ParseElem, CanonicalItem;
    if items != [] {
      var rest := items[1..];
      ItemRoundTrips(items[0], f);
      ElemsRoundTrip(rest, f);
      assert PrintedItems(items)[1..] == PrintedItems(rest);
      var r := ParseElems(PrintedItems(items), f);
      if r == Ok(items) {
        var first := ParseElem(PrintedItems(items)[0], f).value;
        var others := ParseElems(PrintedItems(rest), f).value;
        assert first + others == items;
        assert |first| == 1 && first == [items[0]] && others == rest;
        forall i | 0 <= i < |items|
          ensures CanonicalItem(items[i], f)
        {
          if i > 0 {
            assert items[i] == rest[i - 1];
          }
        }
      }
      if forall i | 0 <= i < |items| :: CanonicalItem(items[i], f) {
        assert forall i | 0 <= i < |rest| :: rest[i] == items[i + 1];
        assert [items[0]] + rest == items;
      }
    }
  }

  // ExprData: parsing undoes printing exactly on lists of canonical expressions, each under its
  // own type's name.
  lemma {:induction false} ItemsRoundTripIffCanonical(items: seq<Item>, f: int -> int)
    requires FloatPassage(f)
    ensures PrintItems(items).Ok? && ParseItems(PrintItems(items).value, f) == Ok(items)
       <==> forall i | 0 <= i < |items| :: CanonicalItem(items[i], f)
  {
    hide PrintItem, ParseElem, ParseElems;
    if (forall i | 0 <= i < |items| :: CanonicalItem(items[i], f)) || PrintItems(items).Ok? {
      forall i | 0 <= i < |items|
        ensures PrintItem(items[i]).Ok?
      {
        if CanonicalItem(items[i], f) {
          RoundTripsIffCanonical(items[i].any, f);
          ItemPrints(items[i]);
        }
      }
      ElemsRoundTrip(items, f);
      if items != [] {
        assert PrintItems(items) == Ok(JArr(PrintedItems(items)));
      }
    }
  }

  lemma {:induction false} ItemPrints(item: Item)
    ensures PrintItem(item).Ok? <==> Print(item.any).Ok?
  {
    hide Print;
  }
}
