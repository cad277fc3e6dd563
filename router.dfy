/** Request routing of the serverless handler: the function-path prefix is
    stripped, then a `switch (true)` cascade picks the first case whose
    expression selects it, and the parametric routes take their patient
    identifier as the third `/`-separated component of the path. */
module Router {
  import opened Json

  /** The prefix under which the deployed function is reached. */
  const FunctionPrefix := "/.netlify/functions/api"
  const PatientsPrefix := "/patients/"

  /** `path.replace(/^\/\.netlify\/functions\/api/, '')`. */
  function StripPrefix(path: string): (p: string)
    ensures FunctionPrefix <= path ==> path == FunctionPrefix + p
    ensures !(FunctionPrefix <= path) ==> p == path
  {
    if FunctionPrefix <= path then path[|FunctionPrefix|..] else path
  }

  // ---------------------------------------------------------------- split

  /** `s.split(d)` for a one-character separator. */
  function Split(s: string, d: char): (parts: seq<string>)
    ensures |parts| >= 1
  {
    if s == [] then [[]]
    else if s[0] == d then [[]] + Split(s[1..], d)
    else
      var rest := Split(s[1..], d);
      [[s[0]] + rest[0]] + rest[1..]
  }

  /** `parts.join(d)`. */
  function Join(parts: seq<string>, d: char): string
    requires |parts| >= 1
  {
    if |parts| == 1 then parts[0] else parts[0] + [d] + Join(parts[1..], d)
  }

  /** Joining the pieces of a split gives back the string. */
  lemma {:induction false} JoinSplit(s: string, d: char)
    ensures Join(Split(s, d), d) == s
  {
    if s != [] {
      JoinSplit(s[1..], d);
      if s[0] != d {
        var rest := Split(s[1..], d);
        if |rest| == 1 {
          assert Join(Split(s, d), d) == [s[0]] + rest[0];
        } else {
          calc {
            Join(Split(s, d), d);
            ([s[0]] + rest[0]) + [d] + Join(rest[1..], d);
            [s[0]] + (rest[0] + [d] + Join(rest[1..], d));
            [s[0]] + Join(rest, d);
          }
        }
        assert s == [s[0]] + s[1..];
      }
    }
  }

  /** No piece of a split contains the separator. */
  lemma {:induction false} SplitPiecesFree(s: string, d: char)
    ensures forall i :: 0 <= i < |Split(s, d)| ==> d !in Split(s, d)[i]
  {
    if s != [] {
      SplitPiecesFree(s[1..], d);
    }
  }

  /** A string without the separator splits into itself alone. */
  lemma {:induction false} SplitFree(a: string, d: char)
    requires d !in a
    ensures Split(a, d) == [a]
  {
    if a != [] {
      SplitFree(a[1..], d);
      assert [a[0]] + a[1..] == a;
    }
  }

  /** A separator-free head followed by the separator is split off as one piece. */
  lemma {:induction false} SplitCons(a: string, b: string, d: char)
    requires d !in a
    ensures Split(a + [d] + b, d) == [a] + Split(b, d)
  {
    if a == [] {
      assert a + [d] + b == [d] + b;
      assert ([d] + b)[1..] == b;
    } else {
      SplitCons(a[1..], b, d);
      assert (a + [d] + b)[1..] == a[1..] + [d] + b;
      assert [a[0]] + a[1..] == a;
    }
  }

  /** Splitting a join of separator-free pieces gives back the pieces. */
  lemma {:induction false} SplitJoin(parts: seq<string>, d: char)
    requires |parts| >= 1
    requires forall i :: 0 <= i < |parts| ==> d !in parts[i]
    ensures Split(Join(parts, d), d) == parts
  {
    if |parts| == 1 {
      SplitFree(parts[0], d);
    } else {
      SplitJoin(parts[1..], d);
      SplitCons(parts[0], Join(parts[1..], d), d);
      assert [parts[0]] + parts[1..] == parts;
    }
  }

  // ---------------------------------------------------------------- segments

  /** A character of the regular-expression class `[\w-]`. */
  predicate IsWordChar(c: char)
  {
    'A' <= c <= 'Z' || 'a' <= c <= 'z' || '0' <= c <= '9' || c == '_' || c == '-'
  }

  /** A string matched by `[\w-]+`. */
  predicate IsSegment(s: string)
  {
    |s| > 0 && forall i :: 0 <= i < |s| ==> IsWordChar(s[i])
  }

  /** Matches `path` against `^prefix[\w-]+suffix$` and yields the segment. */
  function MatchSegment(path: string, prefix: string, suffix: string): (m: Option<string>)
    ensures m.Some? ==> path == prefix + m.value + suffix && IsSegment(m.value)
  {
    if |path| > |prefix| + |suffix| && prefix <= path && path[|path| - |suffix|..] == suffix
       && IsSegment(path[|prefix|..|path| - |suffix|])
    then
      var seg := path[|prefix|..|path| - |suffix|];
      assert path == path[..|prefix|] + seg + path[|path| - |suffix|..];
      Some(seg)
    else None
  }

  /** Every path of the form prefix, segment, suffix matches, with that segment. */
  lemma MatchSegmentComplete(prefix: string, seg: string, suffix: string)
    requires IsSegment(seg)
    ensures MatchSegment(prefix + seg + suffix, prefix, suffix) == Some(seg)
  {
    var path := prefix + seg + suffix;
    assert path[..|prefix|] == prefix;
    assert path[|path| - |suffix|..] == suffix;
    assert path[|prefix|..|path| - |suffix|] == seg;
  }

  /** `/patients/` splits off an empty piece and the piece "patients". */
  lemma PatientsPrefixSplit(rest: string)
    ensures Split(PatientsPrefix + rest, '/') == ["", "patients"] + Split(rest, '/')
  {
    SplitCons("patients", rest, '/');
    SplitCons("", "patients" + "/" + rest, '/');
    assert PatientsPrefix + rest == "" + "/" + ("patients" + "/" + rest);
  }

  /** For `/patients/<seg><suffix>` with a suffix empty or starting with `/`,
      `path.split('/')[2]` is the matched segment. */
  lemma {:induction false} SegmentIsThirdComponent(seg: string, suffix: string)
    requires IsSegment(seg)
    requires suffix == [] || suffix[0] == '/'
    ensures |Split(PatientsPrefix + seg + suffix, '/')| > 2
    ensures Split(PatientsPrefix + seg + suffix, '/')[2] == seg
  {
    assert forall i :: 0 <= i < |seg| ==> seg[i] != '/';
    var tail: seq<string>;
    if suffix == [] {
      SplitFree(seg, '/');
      assert seg + suffix == seg;
      tail := [seg];
    } else {
      SplitCons(seg, suffix[1..], '/');
      assert suffix == ['/'] + suffix[1..];
      assert seg + ['/'] + suffix[1..] == seg + suffix;
      tail := [seg] + Split(suffix[1..], '/');
    }
    assert Split(seg + suffix, '/') == tail;
    PatientsPrefixSplit(seg + suffix);
    assert PatientsPrefix + seg + suffix == PatientsPrefix + (seg + suffix);
  }

  /** The component at index 2 of a matched parametric path. */
  function IdComponent(path: string): string
    requires |Split(path, '/')| > 2
  {
    Split(path, '/')[2]
  }

  /** The identifier of a path matched by `^\/patients\/[\w-]+suffix$` is its
      third component, and that component is the matched segment. */
  lemma MatchedIdComponent(path: string, suffix: string)
    requires suffix == [] || suffix[0] == '/'
    requires MatchSegment(path, PatientsPrefix, suffix).Some?
    ensures |Split(path, '/')| > 2
    ensures IdComponent(path) == MatchSegment(path, PatientsPrefix, suffix).value
  {
    SegmentIsThirdComponent(MatchSegment(path, PatientsPrefix, suffix).value, suffix);
  }

  // ---------------------------------------------------------------- dispatch

  /** The value of a `case` expression: a boolean, the array `String.match`
      returns on success, or the `null` it returns on failure. */
  datatype CaseValue = Boolean(b: bool) | MatchArray(whole: string) | NullValue

  /** JavaScript `lhs && rhs` with a boolean left operand: false stays false,
      otherwise the value is the right operand itself. */
  function And(lhs: bool, rhs: CaseValue): CaseValue
  {
    if lhs then rhs else Boolean(false)
  }

  /** `path.match(/^prefix[\w-]+suffix$/)`. */
  function RegexMatch(path: string, prefix: string, suffix: string): CaseValue
  {
    if MatchSegment(path, prefix, suffix).Some? then MatchArray(path) else NullValue
  }

  /** Whether a case value picks its clause: under `switch (true)` only a value
      `=== true` does (strict); under an ordinary truthiness test a match
      array does too. */
  predicate Selects(v: CaseValue, strict: bool)
  {
    if strict then v == Boolean(true) else v == Boolean(true) || v.MatchArray?
  }

  datatype Endpoint =
    | ListPatients
    | CreatePatient
    | UpdatePatient(mrn: string)
    | ListNotes(mrn: string)
    | CreateNote
    | Discharge(mrn: string)
    | Specialties
    | NoRoute

  predicate IsParametric(r: Endpoint)
  {
    r.UpdatePatient? || r.ListNotes? || r.Discharge?
  }

  /** The case cascade in its order; `strict` chooses how a case value is tested. */
  function RouteWith(verb: string, path: string, strict: bool): Endpoint
  {
    if Selects(Boolean(verb == "GET" && path == "/patients"), strict) then ListPatients
    else if Selects(Boolean(verb == "POST" && path == "/patients"), strict) then CreatePatient
    else if Selects(And(verb == "PUT", RegexMatch(path, PatientsPrefix, "")), strict) then
      MatchedIdComponent(path, "");
      UpdatePatient(IdComponent(path))
    else if Selects(And(verb == "GET", RegexMatch(path, PatientsPrefix, "/notes")), strict) then
      MatchedIdComponent(path, "/notes");
      ListNotes(IdComponent(path))
    else if Selects(Boolean(verb == "POST" && path == "/notes"), strict) then CreateNote
    else if Selects(And(verb == "POST", RegexMatch(path, PatientsPrefix, "/discharge")), strict) then
      MatchedIdComponent(path, "/discharge");
      Discharge(IdComponent(path))
    else if Selects(Boolean(verb == "GET" && path == "/specialties"), strict) then Specialties
    else NoRoute
  }

  /** The dispatch as the handler is written: `switch (true)` compares every
      case expression with `===`. */
  function RouteAsWritten(verb: string, path: string): Endpoint
  {
    RouteWith(verb, path, true)
  }

  /** The dispatch as evidently intended: each case selected when its
      expression is truthy. */
  function Route(verb: string, path: string): (r: Endpoint)
    ensures r == ListPatients <==> verb == "GET" && path == "/patients"
    ensures r == CreatePatient <==> verb == "POST" && path == "/patients"
    ensures r == CreateNote <==> verb == "POST" && path == "/notes"
    ensures r == Specialties <==> verb == "GET" && path == "/specialties"
    ensures r.UpdatePatient? ==> verb == "PUT" && path == PatientsPrefix + r.mrn && IsSegment(r.mrn)
    ensures r.ListNotes? ==> verb == "GET" && path == PatientsPrefix + r.mrn + "/notes" && IsSegment(r.mrn)
    ensures r.Discharge? ==> verb == "POST" && path == PatientsPrefix + r.mrn + "/discharge" && IsSegment(r.mrn)
  {
    var r := RouteWith(verb, path, false);
    if r.UpdatePatient? then MatchedIdComponent(path, ""); r
    else if r.ListNotes? then MatchedIdComponent(path, "/notes"); r
    else if r.Discharge? then MatchedIdComponent(path, "/discharge"); r
    else r
  }

  /** `PUT /patients/<seg>` reaches the update route with identifier `seg`. */
  lemma RouteToUpdate(seg: string)
    requires IsSegment(seg)
    ensures Route("PUT", PatientsPrefix + seg) == UpdatePatient(seg)
  {
    MatchSegmentComplete(PatientsPrefix, seg, "");
    assert PatientsPrefix + seg + "" == PatientsPrefix + seg;
    MatchedIdComponent(PatientsPrefix + seg, "");
  }

  /** `GET /patients/<seg>/notes` reaches the note listing for `seg`. */
  lemma RouteToNotes(seg: string)
    requires IsSegment(seg)
    ensures Route("GET", PatientsPrefix + seg + "/notes") == ListNotes(seg)
  {
    var path := PatientsPrefix + seg + "/notes";
    MatchSegmentComplete(PatientsPrefix, seg, "/notes");
    MatchedIdComponent(path, "/notes");
    assert path != "/patients" && path != "/specialties";
  }

  /** `POST /patients/<seg>/discharge` reaches the discharge of `seg`. */
  lemma RouteToDischarge(seg: string)
    requires IsSegment(seg)
    ensures Route("POST", PatientsPrefix + seg + "/discharge") == Discharge(seg)
  {
    var path := PatientsPrefix + seg + "/discharge";
    MatchSegmentComplete(PatientsPrefix, seg, "/discharge");
    MatchedIdComponent(path, "/discharge");
    assert path != "/patients" && path != "/notes";
  }

  /** The written dispatch never reaches a parametric route: those requests
      fall through to the default case. Elsewhere it agrees with `Route`. */
  lemma AsWrittenDispatch(verb: string, path: string)
    ensures RouteAsWritten(verb, path) ==
      if IsParametric(Route(verb, path)) then NoRoute else Route(verb, path)
  {
  }

  /** A concrete request that shows the difference. */
  lemma AsWrittenRejectsUpdate()
    ensures RouteAsWritten("PUT", "/patients/A1") == NoRoute
    ensures Route("PUT", "/patients/A1") == UpdatePatient("A1")
  {
    assert IsSegment("A1") by {
      assert IsWordChar("A1"[0]) && IsWordChar("A1"[1]);
    }
    RouteToUpdate("A1");
    assert PatientsPrefix + "A1" == "/patients/A1";
    AsWrittenDispatch("PUT", "/patients/A1");
  }
}
