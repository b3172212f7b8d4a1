/** What the parser of module NftExpr can produce: canonical expressions, bar the known defects. */
module NftNormalForm {
  import opened Common
  import opened NftExpr

  // The expressions outside the known defects of the printer: every match has a right side, and
  // there is no mangle, no nested concat list and no nested jhash entry.
  ghost predicate Sound(e: Any) {
    match e
    case Match(_, left, right) =>
      && (forall k | k in left :: Sound(left[k]))
      && right.Some?
      && (forall k | k in right.value.anys :: Sound(right.value.anys[k]))
    case Mangle(_, _) => false
    case Jhash(_, _, exprs) => exprs == map[]
    case Concat(data) => data == []
    case _ => true
  }

  lemma {:induction false} RefloatTwice(j: Json, f: int -> int)
    requires FloatPassage(f)
    ensures Refloat(Refloat(j, f), f) == Refloat(j, f)
    ensures Refloat(j, f).JObj? <==> j.JObj?
  {
    match j
    case JNum(n) => assert f(f(n)) == f(n);
    case JArr(elems) =>
      forall i | 0 <= i < |elems|
        ensures Refloat(Refloat(elems[i], f), f) == Refloat(elems[i], f)
      {
        RefloatTwice(elems[i], f);
      }
    case JObj(fields) =>
      forall k | k in fields
        ensures Refloat(Refloat(fields[k], f), f) == Refloat(fields[k], f)
      {
        RefloatTwice(fields[k], f);
      }
    case _ =>
  }

  lemma {:induction false} FlatIsCanonical(name: Key, m: map<Key, Json>, f: int -> int)
    requires FloatPassage(f)
    requires ParseFlat(name, m, f).Ok? && Sound(ParseFlat(name, m, f).value)
    ensures Canonical(ParseFlat(name, m, f).value, f)
  {
    hide StrField;
    forall k, lo, hi | lo <= 0 <= hi && IntField(m, k, lo, hi, f).Ok?
      ensures f(IntField(m, k, lo, hi, f).value) == IntField(m, k, lo, hi, f).value
    {
      IntFieldFixed(m, k, lo, hi, f);
    }
    hide IntField;
  }

  lemma {:induction false} IntFieldFixed(m: map<Key, Json>, k: Key, lo: int, hi: int, f: int -> int)
    requires FloatPassage(f) && lo <= 0 <= hi && IntField(m, k, lo, hi, f).Ok?
    ensures f(IntField(m, k, lo, hi, f).value) == IntField(m, k, lo, hi, f).value
  {
    if k in m && m[k].JNum? {
      assert f(f(m[k].n)) == f(m[k].n);
    }
  }

  lemma {:induction false} QueueIsCanonical(j: Json, f: int -> int)
    requires FloatPassage(f) && ParseQueue(j, f).Ok?
    ensures Canonical(ParseQueue(j, f).value, f)
  {
    match j
    case JObj(m) => IntFieldFixed(m, KNum, -TWO_64 / 2, TWO_64 / 2 - 1, f);
    case JNum(n) => assert f(f(n)) == f(n);
  }

  // Whatever the parser accepts, the expression it builds is canonical, bar the known defects.
  lemma {:induction false} ParsedIsCanonical(name: Key, j: Json, f: int -> int)
    requires FloatPassage(f)
    requires Parse(name, j, f).Ok? && Sound(Parse(name, j, f).value)
    ensures Canonical(Parse(name, j, f).value, f)
    decreases j
  {
    hide ParseFlat, ParseQueue, ParseItems, ParseMap, ParseLeft, ParseRight;
    if name == KMatch {
      var e := Parse(name, j, f).value;
      var left := ParseLeft(j, f);
      assert e.left == left.value;
      LeftIsCanonical(j, f);
      if KRight in j.fields {
        assert ParseRight(j.fields[KRight], f) == Ok(e.right.value);
        RightIsCanonical(j.fields[KRight], f);
      }
    } else if name == KQueue {
      QueueIsCanonical(j, f);
    } else if name == KConcat || name == KRange {
    } else {
      FlatIsCanonical(name, Members(j).value, f);
    }
  }

  lemma {:induction false} MapIsCanonical(j: Json, f: int -> int)
    requires FloatPassage(f) && j.JObj? && ParseMap(j, f).Ok?
    requires forall k | k in ParseMap(j, f).value :: Sound(ParseMap(j, f).value[k])
    ensures CanonicalMap(ParseMap(j, f).value, f)
    decreases j, 0
  {
    hide Parse, Canonical;
    var m := ParseMap(j, f).value;
    forall k | k in m
      ensures TypeName(m[k]) == k && Canonical(m[k], f)
    {
      assert Parse(k, j.fields[k], f) == Ok(m[k]);
      ParsedUnderOwnName(k, j.fields[k], f);
      ParsedIsCanonical(k, j.fields[k], f);
    }
  }

  lemma {:induction false} LeftIsCanonical(j: Json, f: int -> int)
    requires FloatPassage(f) && j.JObj? && ParseLeft(j, f).Ok?
    requires forall k | k in ParseLeft(j, f).value :: Sound(ParseLeft(j, f).value[k])
    ensures CanonicalMap(ParseLeft(j, f).value, f)
    decreases j, 0
  {
    hide ParseMap;
    if KLeft in j.fields && j.fields[KLeft].JObj? {
      MapIsCanonical(j.fields[KLeft], f);
    }
  }

  lemma {:induction false} RightIsCanonical(j: Json, f: int -> int)
    requires FloatPassage(f) && ParseRight(j, f).Ok?
    requires forall k | k in ParseRight(j, f).value.anys :: Sound(ParseRight(j, f).value.anys[k])
    ensures CanonicalRight(ParseRight(j, f).value, f)
    decreases j, 1
  {
    hide ParseMap, Canonical;
    if j.JObj? {
      MapIsCanonical(j, f);
    } else {
      RefloatTwice(j, f);
      RefloatKeepsIffExact(Refloat(j, f), f);
    }
  }

  lemma {:induction false} CanonicalIsSound(e: Any, f: int -> int)
    requires Canonical(e, f)
    ensures Sound(e)
    decreases e
  {
    if e.Match? {
      forall k | k in e.left
        ensures Sound(e.left[k])
      {
        CanonicalIsSound(e.left[k], f);
      }
      forall k | k in e.right.value.anys
        ensures Sound(e.right.value.anys[k])
      {
        assert CanonicalRight(e.right.value, f);
        CanonicalIsSound(e.right.value.anys[k], f);
      }
    }
  }
}
