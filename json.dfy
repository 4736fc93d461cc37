/** The in-memory JSON tree the comparator works on (Gson's JsonElement),
    Gson's structural `equals`, and the path syntax the walker builds. */
module JsonModel {
  import opened Common

  /** Gson's element kinds. An object keeps its members in insertion order
      (Gson's LinkedTreeMap). A parsed number keeps the text it was written
      with (Gson's LazilyParsedNumber), which is what getAsString and toString
      print, and its value, which is what equality compares. */
  datatype Json =
    | JNull
    | JBool(b: bool)
    | JNum(text: string, value: real)
    | JStr(s: string)
    | JArr(elems: seq<Json>)
    | JObj(fields: seq<(string, Json)>)
  {
    /** Gson's `isJsonPrimitive`: JSON null is not a primitive. */
    predicate IsPrimitive() {
      JBool? || JNum? || JStr?
    }
  }

  /** Serialisation, done by Gson's toString. */
  datatype Printer = Printer(serialize: Json -> string)

  /** The field names of an object, as a set. */
  function Keys(fields: seq<(string, Json)>): (ks: set<string>)
    ensures forall i :: 0 <= i < |fields| ==> fields[i].0 in ks
  {
    if fields == [] then {} else {fields[0].0} + Keys(fields[1..])
  }

  /** Membership of a field name, stated directly on the member sequence. */
  ghost predicate HasField(fields: seq<(string, Json)>, k: string) {
    exists i :: 0 <= i < |fields| && fields[i].0 == k
  }

  lemma {:induction false} KeysAreFieldNames(fields: seq<(string, Json)>, k: string)
    ensures k in Keys(fields) <==> HasField(fields, k)
  {
    if fields != [] {
      KeysAreFieldNames(fields[1..], k);
      if HasField(fields[1..], k) {
        var i :| 0 <= i < |fields[1..]| && fields[1..][i].0 == k;
        assert fields[i + 1].0 == k;
      }
      if HasField(fields, k) && fields[0].0 != k {
        var i :| 0 <= i < |fields| && fields[i].0 == k;
        assert fields[1..][i - 1].0 == k;
      }
    }
  }

  /** Position of the member a JsonObject.get(k) returns. */
  function IndexOf(fields: seq<(string, Json)>, k: string): (i: nat)
    requires k in Keys(fields)
    ensures i < |fields| && fields[i].0 == k
    ensures forall j :: 0 <= j < i ==> fields[j].0 != k
  {
    if fields[0].0 == k then 0 else 1 + IndexOf(fields[1..], k)
  }

  /** Gson never holds two members with the same name. */
  predicate UniqueKeys(fields: seq<(string, Json)>) {
    forall i, j :: 0 <= i < j < |fields| ==> fields[i].0 != fields[j].0
  }

  /** Every object in the tree has unique member names. */
  predicate WellFormed(j: Json) {
    match j
    case JArr(es) => forall i :: 0 <= i < |es| ==> WellFormed(es[i])
    case JObj(fs) => UniqueKeys(fs) && forall i :: 0 <= i < |fs| ==> WellFormed(fs[i].1)
    case _ => true
  }

  /** Gson's `JsonElement.equals`: arrays element-wise in order, objects as
      name-to-value maps (member order ignored), numbers by value whatever
      their text, other primitives and null by value. */
  predicate JsonEq(a: Json, b: Json)
    decreases a
  {
    match a
    case JArr(ea) =>
      b.JArr? && |ea| == |b.elems| &&
      forall i :: 0 <= i < |ea| ==> JsonEq(ea[i], b.elems[i])
    case JObj(fa) =>
      b.JObj? && Keys(fa) == Keys(b.fields) &&
      forall k :: k in Keys(fa) ==>
        JsonEq(fa[IndexOf(fa, k)].1, b.fields[IndexOf(b.fields, k)].1)
    case JNum(_, v) => b.JNum? && b.value == v
    case _ => a == b
  }

  lemma {:induction false} JsonEqReflexive(a: Json)
    ensures JsonEq(a, a)
    decreases a
  {
    match a
    case JArr(ea) =>
      forall i | 0 <= i < |ea| ensures JsonEq(ea[i], ea[i]) { JsonEqReflexive(ea[i]); }
    case JObj(fa) =>
      forall k | k in Keys(fa) ensures JsonEq(fa[IndexOf(fa, k)].1, fa[IndexOf(fa, k)].1) {
        JsonEqReflexive(fa[IndexOf(fa, k)].1);
      }
    case _ =>
  }

  lemma {:induction false} JsonEqSymmetric(a: Json, b: Json)
    requires JsonEq(a, b)
    ensures JsonEq(b, a)
    decreases a
  {
    match a
    case JArr(ea) =>
      forall i | 0 <= i < |ea| ensures JsonEq(b.elems[i], ea[i]) { JsonEqSymmetric(ea[i], b.elems[i]); }
    case JObj(fa) =>
      forall k | k in Keys(b.fields)
        ensures JsonEq(b.fields[IndexOf(b.fields, k)].1, fa[IndexOf(fa, k)].1)
      {
        JsonEqSymmetric(fa[IndexOf(fa, k)].1, b.fields[IndexOf(b.fields, k)].1);
      }
    case _ =>
  }

  lemma {:induction false} JsonEqTransitive(a: Json, b: Json, c: Json)
    requires JsonEq(a, b) && JsonEq(b, c)
    ensures JsonEq(a, c)
    decreases a
  {
    match a
    case JArr(ea) =>
      forall i | 0 <= i < |ea| ensures JsonEq(ea[i], c.elems[i]) {
        JsonEqTransitive(ea[i], b.elems[i], c.elems[i]);
      }
    case JObj(fa) =>
      forall k | k in Keys(fa)
        ensures JsonEq(fa[IndexOf(fa, k)].1, c.fields[IndexOf(c.fields, k)].1)
      {
        JsonEqTransitive(fa[IndexOf(fa, k)].1, b.fields[IndexOf(b.fields, k)].1,
                         c.fields[IndexOf(c.fields, k)].1);
      }
    case _ =>
  }

  /** Path of a member: `P['name']`. */
  function FieldPath(path: string, name: string): string {
    path + "['" + name + "']"
  }

  /** Path of an array element: `P[i]`. */
  function IndexPath(path: string, i: nat): string {
    path + "[" + NatToString(i) + "]"
  }
}
