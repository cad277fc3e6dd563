/** The pure operations the handler applies to its stored records: the
    first-match lookup by a string field (`findIndex`), the note listing
    (`filter`), the shallow merge of object spread, the record shapes each
    route stores, and the de-duplication of specialties through a `Set`. */
module Records {
  import opened Json

  /** `r[k] === s` for a string `s`: the field is present and is that string. */
  predicate Keyed(r: Record, k: string, s: string)
  {
    k in r && r[k] == Str(s)
  }

  // ---------------------------------------------------------------- lookup

  /** `rs.findIndex(r => r[k] === s)`: the first matching index, or -1. */
  function FindIndex(rs: seq<Record>, k: string, s: string): (i: int)
    ensures -1 <= i < |rs|
    ensures i == -1 <==> forall j :: 0 <= j < |rs| ==> !Keyed(rs[j], k, s)
    ensures 0 <= i ==> Keyed(rs[i], k, s) && forall j :: 0 <= j < i ==> !Keyed(rs[j], k, s)
  {
    if rs == [] then -1
    else if Keyed(rs[0], k, s) then 0
    else
      var i := FindIndex(rs[1..], k, s);
      if i == -1 then -1 else i + 1
  }

  /** Replacing the found record by one that still carries the key keeps the
      lookup on the same index: a later lookup finds the same patient. */
  lemma FindIndexAfterReplace(rs: seq<Record>, k: string, s: string, rec: Record)
    requires 0 <= FindIndex(rs, k, s)
    requires Keyed(rec, k, s)
    ensures FindIndex(rs[FindIndex(rs, k, s) := rec], k, s) == FindIndex(rs, k, s)
  {
    var i := FindIndex(rs, k, s);
    var rs' := rs[i := rec];
    assert Keyed(rs'[i], k, s);
    assert forall j :: 0 <= j < i ==> !Keyed(rs'[j], k, s);
  }

  // ---------------------------------------------------------------- filter

  /** `rs.filter(r => r[k] === s)`. */
  function Filter(rs: seq<Record>, k: string, s: string): (r: seq<Record>)
    ensures |r| <= |rs|
    ensures forall x :: x in r ==> x in rs && Keyed(x, k, s)
    ensures forall x :: x in rs && Keyed(x, k, s) ==> x in r
  {
    if rs == [] then []
    else (if Keyed(rs[0], k, s) then [rs[0]] else []) + Filter(rs[1..], k, s)
  }

  /** The filter works element by element and keeps the stored order: the
      filter of a concatenation is the concatenation of the filters. */
  lemma {:induction false} FilterAppend(a: seq<Record>, b: seq<Record>, k: string, s: string)
    ensures Filter(a + b, k, s) == Filter(a, k, s) + Filter(b, k, s)
  {
    if a == [] {
      assert a + b == b;
    } else {
      var head := if Keyed(a[0], k, s) then [a[0]] else [];
      calc {
        Filter(a + b, k, s);
        { assert (a + b)[0] == a[0]; assert (a + b)[1..] == a[1..] + b; }
        head + Filter(a[1..] + b, k, s);
        { FilterAppend(a[1..], b, k, s); }
        head + (Filter(a[1..], k, s) + Filter(b, k, s));
        (head + Filter(a[1..], k, s)) + Filter(b, k, s);
        Filter(a, k, s) + Filter(b, k, s);
      }
    }
  }

  /** Each matching record occurs in the result as often as it is stored, and
      no other record occurs. */
  lemma {:induction false} FilterCount(rs: seq<Record>, k: string, s: string, x: Record)
    ensures multiset(Filter(rs, k, s))[x] == if Keyed(x, k, s) then multiset(rs)[x] else 0
  {
    if rs != [] {
      var head := if Keyed(rs[0], k, s) then [rs[0]] else [];
      FilterCount(rs[1..], k, s, x);
      assert rs == [rs[0]] + rs[1..];
      assert multiset(rs) == multiset{rs[0]} + multiset(rs[1..]);
      assert multiset(Filter(rs, k, s)) == multiset(head) + multiset(Filter(rs[1..], k, s));
    }
  }

  /** With no matching record the listing is empty (not an error). */
  lemma {:induction false} FilterNone(rs: seq<Record>, k: string, s: string)
    requires forall j :: 0 <= j < |rs| ==> !Keyed(rs[j], k, s)
    ensures Filter(rs, k, s) == []
  {
    if rs != [] {
      FilterNone(rs[1..], k, s);
    }
  }

  // ---------------------------------------------------------------- record shapes

  /** `{ ...base, ...updates }`: a shallow merge in which the updates win. */
  function Merge(base: Record, updates: Record): (m: Record)
    ensures m.Keys == base.Keys + updates.Keys
    ensures forall k :: k in updates ==> m[k] == updates[k]
    ensures forall k :: k in base && k !in updates ==> m[k] == base[k]
  {
    base + updates
  }

  /** A created patient: the body with `status` forced to "Active". */
  function Activated(body: Record): (p: Record)
    ensures p.Keys == body.Keys + {"status"}
    ensures p["status"] == Str("Active")
    ensures forall k :: k in body && k != "status" ==> p[k] == body[k]
  {
    body["status" := Str("Active")]
  }

  /** A created note: the body with `id` overwritten by the fresh id. */
  function WithId(body: Record, id: string): (n: Record)
    ensures n.Keys == body.Keys + {"id"}
    ensures n["id"] == Str(id)
    ensures forall k :: k in body && k != "id" ==> n[k] == body[k]
  {
    body["id" := Str(id)]
  }

  /** A discharged patient: status "Discharged" and a discharge date, every
      other field kept. */
  function Discharged(p: Record, at: string): (d: Record)
    ensures d.Keys == p.Keys + {"status", "dischargeDate"}
    ensures d["status"] == Str("Discharged") && d["dischargeDate"] == Str(at)
    ensures forall k :: k in p && k != "status" && k != "dischargeDate" ==> d[k] == p[k]
  {
    Merge(p, map["status" := Str("Discharged"), "dischargeDate" := Str(at)])
  }

  const DischargeNotePrefix := "Discharge notes: "

  /** The note the discharge appends, authored by "System". */
  function DischargeNote(id: string, mrn: string, at: string, text: string): (n: Record)
    ensures n.Keys == {"id", "patientMrn", "date", "note", "user"}
    ensures Keyed(n, "id", id) && Keyed(n, "patientMrn", mrn) && Keyed(n, "date", at)
    ensures Keyed(n, "note", DischargeNotePrefix + text) && Keyed(n, "user", "System")
  {
    map["id" := Str(id), "patientMrn" := Str(mrn), "date" := Str(at),
        "note" := Str(DischargeNotePrefix + text), "user" := Str("System")]
  }

  /** A created note shows up at the end of the listing for the MRN its body
      names, and nowhere else. */
  lemma ListAfterCreateNote(notes: seq<Record>, body: Record, id: string, mrn: string)
    ensures Filter(notes + [WithId(body, id)], "patientMrn", mrn) ==
      Filter(notes, "patientMrn", mrn) + (if Keyed(body, "patientMrn", mrn) then [WithId(body, id)] else [])
  {
    FilterAppend(notes, [WithId(body, id)], "patientMrn", mrn);
    assert Keyed(WithId(body, id), "patientMrn", mrn) == Keyed(body, "patientMrn", mrn);
  }

  /** The note a discharge appends is listed last under the discharged MRN. */
  lemma ListAfterDischarge(notes: seq<Record>, id: string, mrn: string, at: string, text: string)
    ensures Filter(notes + [DischargeNote(id, mrn, at, text)], "patientMrn", mrn) ==
      Filter(notes, "patientMrn", mrn) + [DischargeNote(id, mrn, at, text)]
  {
    FilterAppend(notes, [DischargeNote(id, mrn, at, text)], "patientMrn", mrn);
  }

  // ---------------------------------------------------------------- specialties

  /** `patients.map(p => p.specialty)`. */
  function SpecialtiesOf(ps: seq<Record>): seq<Option<Value>>
  {
    seq(|ps|, i requires 0 <= i < |ps| => Get(ps[i], "specialty"))
  }

  /** Whether a `Set` compares the value by content. Arrays and objects are
      compared by identity, and no two stored patients share one, so such a
      value is never merged with another. */
  predicate IsPrimitive(v: Option<Value>)
  {
    !(v.Some? && (v.value.Arr? || v.value.Obj?))
  }

  /** `[...new Set(xs)]`: elements in insertion order, a primitive value
      added only on its first occurrence. */
  function Distinct(xs: seq<Option<Value>>): (r: seq<Option<Value>>)
    ensures forall x :: x in r <==> x in xs
    ensures forall i, j :: 0 <= i < j < |r| && IsPrimitive(r[i]) ==> r[i] != r[j]
  {
    if xs == [] then []
    else
      var d := Distinct(xs[..|xs| - 1]);
      var x := xs[|xs| - 1];
      assert xs == xs[..|xs| - 1] + [x];
      if IsPrimitive(x) && x in d then d else d + [x]
  }

  /** `set.add(x)` on the set built so far: a primitive value already present
      leaves the listing as it is, anything else is appended. */
  lemma {:induction false} DistinctSnoc(xs: seq<Option<Value>>, x: Option<Value>)
    ensures Distinct(xs + [x]) ==
      if IsPrimitive(x) && x in xs then Distinct(xs) else Distinct(xs) + [x]
  {
    assert (xs + [x])[..|xs + [x]| - 1] == xs;
  }

  /** A primitive value occurs once if at all; an array or object value as
      often as it is stored. */
  lemma {:induction false} DistinctCount(xs: seq<Option<Value>>, x: Option<Value>)
    ensures multiset(Distinct(xs))[x] ==
      if IsPrimitive(x) then (if x in xs then 1 else 0) else multiset(xs)[x]
  {
    if xs != [] {
      var init := xs[..|xs| - 1];
      var last := xs[|xs| - 1];
      DistinctCount(init, x);
      assert xs == init + [last];
      assert multiset(xs) == multiset(init) + multiset{last};
    }
  }

  /** The position at which `x` first occurs in `xs`. */
  function FirstPos(xs: seq<Option<Value>>, x: Option<Value>): (k: nat)
    requires x in xs
    ensures k < |xs| && xs[k] == x && x !in xs[..k]
  {
    if xs[0] == x then 0 else 1 + FirstPos(xs[1..], x)
  }

  lemma FirstPosPrefix(xs: seq<Option<Value>>, x: Option<Value>, n: nat)
    requires n <= |xs| && x in xs[..n]
    ensures FirstPos(xs, x) == FirstPos(xs[..n], x)
  {
    var k := FirstPos(xs, x);
    var k' := FirstPos(xs[..n], x);
    assert xs[..n][..k'] == xs[..k'];
  }

  /** Primitive values are listed in the order of their first occurrence. */
  lemma {:induction false} DistinctFirstOccurrence(xs: seq<Option<Value>>, i: nat, j: nat)
    requires i < j < |Distinct(xs)|
    requires IsPrimitive(Distinct(xs)[i]) && IsPrimitive(Distinct(xs)[j])
    ensures FirstPos(xs, Distinct(xs)[i]) < FirstPos(xs, Distinct(xs)[j])
  {
    var r := Distinct(xs);
    var init := xs[..|xs| - 1];
    var last := xs[|xs| - 1];
    var d := Distinct(init);
    assert xs == init + [last];
    if j < |d| {
      assert r[i] == d[i] && r[j] == d[j];
      DistinctFirstOccurrence(init, i, j);
      FirstPosPrefix(xs, d[i], |xs| - 1);
      FirstPosPrefix(xs, d[j], |xs| - 1);
    } else {
      // r[j] is the appended last element, which `init` does not hold
      assert r == d + [last] && r[j] == last && last !in d;
      assert last !in init;
      assert r[i] == d[i] && d[i] in init;
      FirstPosPrefix(xs, d[i], |xs| - 1);
      assert FirstPos(xs, last) == |xs| - 1;
    }
  }
}
