/** Queries (query.ts, index.ts): what a filter means for one document, the keys an index offers for a
    filter, and the walk of a datetime column that replaces a sort. */
module Query {
  import opened Bytes
  import D = DtIndexes
  import I = Indexes
  import S = Sorted

  type Pk = string

  /** The fields of a document; a value that is not an object has none. */
  datatype Json = Object(fields: map<string, I.Field>) | Plain

  function Get(doc: Json, field: string): I.Field {
    if doc.Object? && field in doc.fields then doc.fields[field] else I.Missing
  }

  datatype Test =
    | Eq(v: I.Value)
    | Ne(v: I.Value)
    | Gt(v: I.Value)
    | Gte(v: I.Value)
    | Lt(v: I.Value)
    | Lte(v: I.Value)
    | In(vs: seq<I.Value>)
    | Nin(vs: seq<I.Value>)
    | Exists(yes: bool)
    | Contains(v: I.Value)
    | Unknown

  /** A condition: a literal, or an object of operators. */
  datatype Cond = Literal(v: I.Value) | Tests(tests: seq<Test>)

  datatype Clause =
    | Path(field: string, cond: Cond)
    | And(subs: seq<Filter>)
    | Or(subs: seq<Filter>)
    | Nor(subs: seq<Filter>)
    | Not(sub: Filter)

  datatype Filter = Filter(clauses: seq<Clause>)

  // ---- What a filter means -----------------------------------------------------------------------

  /** `===`: objects are never identical to a value of a query. */
  predicate Same(a: I.Field, b: I.Value) {
    match a case Missing => b == I.Undef case One(v) => v == b && !v.Json? case Many(_) => false
  }

  /** What a comparison with a number makes of a value: null and booleans count as numbers. */
  function NumberOf(v: I.Value): Option<real> {
    match v
    case Num(n) => Some(n)
    case Null => Some(0.0)
    case Bool(b) => Some(if b then 1.0 else 0.0)
    case _ => None
  }

  function FieldNumber(a: I.Field): Option<real> { if a.One? then NumberOf(a.v) else None }

  predicate Ordered(a: I.Field, b: I.Value, test: Test) {
    var x, y := FieldNumber(a), NumberOf(b);
    x.Some? && y.Some? &&
      match test
      case Gt(_) => x.value > y.value
      case Gte(_) => x.value >= y.value
      case Lt(_) => x.value < y.value
      case Lte(_) => x.value <= y.value
      case _ => false
  }

  predicate Passes(a: I.Field, test: Test) {
    match test
    case Eq(v) => Same(a, v)
    case Ne(v) => !Same(a, v)
    case In(vs) => exists i :: 0 <= i < |vs| && Same(a, vs[i])
    case Nin(vs) => !exists i :: 0 <= i < |vs| && Same(a, vs[i])
    case Exists(yes) => !a.Missing? == yes
    case Contains(v) => a.Many? && exists i :: 0 <= i < |a.vs| && a.vs[i] == v && !v.Json?
    case Unknown => false
    case _ => Ordered(a, test.v, test)
  }

  predicate MatchCond(a: I.Field, cond: Cond) {
    match cond
    case Literal(v) => Same(a, v)
    case Tests(tests) => forall i :: 0 <= i < |tests| ==> Passes(a, tests[i])
  }

  predicate Matches(doc: Json, f: Filter)
    decreases f
  {
    forall i :: 0 <= i < |f.clauses| ==> MatchesClause(doc, f.clauses[i])
  }

  predicate MatchesClause(doc: Json, c: Clause)
    decreases c
  {
    match c
    case Path(field, cond) => MatchCond(Get(doc, field), cond)
    case And(subs) => forall i :: 0 <= i < |subs| ==> Matches(doc, subs[i])
    case Or(subs) => exists i :: 0 <= i < |subs| && Matches(doc, subs[i])
    case Nor(subs) => forall i :: 0 <= i < |subs| ==> !Matches(doc, subs[i])
    case Not(sub) => !Matches(doc, sub)
  }

  // ---- What the indexes offer --------------------------------------------------------------------

  /** Which fields have an equality index (and whether it is sparse), and which a range index. */
  datatype Catalog = Catalog(equality: map<string, bool>, ranges: set<string>)

  /** findEq on the index of a field: the documents indexed under a value. */
  function FindEq(docs: map<Pk, Json>, field: string, sparse: bool, v: I.Value): set<Pk> {
    set pk | pk in docs && docs[pk].Object? && v in I.KeysOf(I.Equality, sparse, Get(docs[pk], field))
  }

  /** findRange: the documents with a number within bounds. */
  function FindRange(docs: map<Pk, Json>, field: string, lower: S.Bound, upper: S.Bound): set<Pk> {
    set pk | pk in docs && docs[pk].Object? && HasWithin(Get(docs[pk], field), lower, upper)
  }

  predicate HasWithin(field: I.Field, lower: S.Bound, upper: S.Bound) {
    exists i :: 0 <= i < |I.Flatten(field)| && I.Flatten(field)[i].Num?
                && S.Within(lower, upper, S.Entry(S.Num(I.Flatten(field)[i].n), ""))
  }

  /** The literal of an equality condition. */
  function EqArg(cond: Cond): Option<I.Value> {
    match cond
    case Literal(v) => Some(v)
    case Tests(tests) => if |tests| == 1 && tests[0].Eq? then Some(tests[0].v) else None
  }

  function InArg(tests: seq<Test>): Option<seq<I.Value>> {
    if tests == [] then None else if tests[0].In? then Some(tests[0].vs) else InArg(tests[1..])
  }

  /** The bounds of a condition: an exclusive one takes the place of an inclusive one, and only numbers
      count. */
  function LowerArg(tests: seq<Test>): S.Bound {
    if tests == [] then S.Unbounded
    else
      var rest := LowerArg(tests[1..]);
      if tests[0].Gt? && tests[0].v.Num? then S.Exclusive(S.Num(tests[0].v.n))
      else if tests[0].Gte? && tests[0].v.Num? && !rest.Exclusive? then S.Inclusive(S.Num(tests[0].v.n))
      else rest
  }

  function UpperArg(tests: seq<Test>): S.Bound {
    if tests == [] then S.Unbounded
    else
      var rest := UpperArg(tests[1..]);
      if tests[0].Lt? && tests[0].v.Num? then S.Exclusive(S.Num(tests[0].v.n))
      else if tests[0].Lte? && tests[0].v.Num? && !rest.Exclusive? then S.Inclusive(S.Num(tests[0].v.n))
      else rest
  }

  /** candidateKeysForPredicate: None when no index helps. */
  function CandidatesFor(docs: map<Pk, Json>, cat: Catalog, field: string, cond: Cond): Option<set<Pk>> {
    if field in cat.equality && EqArg(cond).Some? then
      Some(FindEq(docs, field, cat.equality[field], EqArg(cond).value))
    else if field in cat.equality && cond.Tests? && InArg(cond.tests).Some? then
      Some(set pk, v | v in InArg(cond.tests).value && pk in FindEq(docs, field, cat.equality[field], v) :: pk)
    else if field in cat.ranges && cond.Tests?
      && !(LowerArg(cond.tests).Unbounded? && UpperArg(cond.tests).Unbounded?) then
      Some(FindRange(docs, field, LowerArg(cond.tests), UpperArg(cond.tests)))
    else None
  }

  /** indexPredicates: the path conditions at the top and directly below an $and. */
  function Predicates(clauses: seq<Clause>): seq<(string, Cond)>
    decreases clauses
  {
    if clauses == [] then []
    else
      (match clauses[0]
       case Path(field, cond) => [(field, cond)]
       case And(subs) => PathsOfAll(subs)
       case _ => []) + Predicates(clauses[1..])
  }

  function PathsOfAll(subs: seq<Filter>): seq<(string, Cond)>
    decreases subs
  {
    if subs == [] then [] else PathsOf(subs[0].clauses) + PathsOfAll(subs[1..])
  }

  function PathsOf(clauses: seq<Clause>): seq<(string, Cond)> {
    if clauses == [] then []
    else (if clauses[0].Path? then [(clauses[0].field, clauses[0].cond)] else []) + PathsOf(clauses[1..])
  }

  /** indexedCandidateKeys: the intersection of what the indexes offer. */
  method IndexedCandidates(docs: map<Pk, Json>, cat: Catalog, f: Filter) returns (keys: Option<set<Pk>>)
    ensures keys == Intersection(docs, cat, Predicates(f.clauses))
  {
    hide CandidatesFor, Predicates;
    var ps := Predicates(f.clauses);
    keys := None;
    assert ps[..0] == [];
    for i := 0 to |ps|
      invariant keys == Intersection(docs, cat, ps[..i])
    {
      assert ps[..i + 1][..i] == ps[..i];
      var found := CandidatesFor(docs, cat, ps[i].0, ps[i].1);
      if found.Some? { keys := if keys.Some? then Some(keys.value * found.value) else found; }
    }
    assert ps[..|ps|] == ps;
  }

  function Intersection(docs: map<Pk, Json>, cat: Catalog, ps: seq<(string, Cond)>): Option<set<Pk>> {
    if ps == [] then None
    else
      var init, last := Intersection(docs, cat, ps[..|ps| - 1]), ps[|ps| - 1];
      var found := CandidatesFor(docs, cat, last.0, last.1);
      if found.None? then init else if init.None? then found else Some(init.value * found.value)
  }

  // ---- No match is lost --------------------------------------------------------------------------

  predicate IsDefined(cond: Cond) {
    match cond
    case Literal(v) => v != I.Undef
    case Tests(tests) =>
      forall i :: 0 <= i < |tests| ==>
        match tests[i] case Eq(v) => v != I.Undef case In(vs) => I.Undef !in vs case _ => true
  }

  /** A value that a bound would take for a number is one. */
  predicate NumberValued(field: I.Field) { field.One? && NumberOf(field.v).Some? ==> field.v.Num? }

  lemma SameIsIndexed(field: I.Field, v: I.Value, sparse: bool)
    requires Same(field, v) && v != I.Undef
    ensures v in I.KeysOf(I.Equality, sparse, field)
  {
  }

  lemma {:induction false} InPasses(field: I.Field, tests: seq<Test>)
    requires InArg(tests).Some? && forall i :: 0 <= i < |tests| ==> Passes(field, tests[i])
    ensures exists j :: 0 <= j < |InArg(tests).value| && Same(field, InArg(tests).value[j])
    ensures (forall i :: 0 <= i < |tests| && tests[i].In? ==> I.Undef !in tests[i].vs) ==>
      I.Undef !in InArg(tests).value
  {
    if !tests[0].In? {
      assert forall i :: 0 <= i < |tests[1..]| ==> tests[1..][i] == tests[i + 1];
      InPasses(field, tests[1..]);
    } else {
      assert Passes(field, tests[0]);
    }
  }

  lemma {:induction false} BoundsPass(n: real, tests: seq<Test>)
    requires forall i :: 0 <= i < |tests| ==> Passes(I.One(I.Num(n)), tests[i])
    ensures S.Within(LowerArg(tests), UpperArg(tests), S.Entry(S.Num(n), ""))
  {
    if tests != [] {
      assert forall i :: 0 <= i < |tests[1..]| ==> tests[1..][i] == tests[i + 1];
      BoundsPass(n, tests[1..]);
      assert Passes(I.One(I.Num(n)), tests[0]);
    }
  }

  lemma {:induction false} BoundsNeedNumber(field: I.Field, tests: seq<Test>)
    requires forall i :: 0 <= i < |tests| ==> Passes(field, tests[i])
    requires !(LowerArg(tests).Unbounded? && UpperArg(tests).Unbounded?)
    ensures FieldNumber(field).Some?
  {
    assert Passes(field, tests[0]);
    assert forall i :: 0 <= i < |tests[1..]| ==> tests[1..][i] == tests[i + 1];
    if !(LowerArg(tests[1..]).Unbounded? && UpperArg(tests[1..]).Unbounded?) { BoundsNeedNumber(field, tests[1..]); }
  }

  /** An index offers every document that meets the condition. */
  lemma OfferedIfMet(docs: map<Pk, Json>, cat: Catalog, field: string, cond: Cond, pk: Pk)
    requires pk in docs && IsDefined(cond) && MatchCond(Get(docs[pk], field), cond)
    requires field in cat.ranges ==> NumberValued(Get(docs[pk], field))
    ensures CandidatesFor(docs, cat, field, cond).Some? ==> pk in CandidatesFor(docs, cat, field, cond).value
  {
    hide I.KeysOf;
    var a := Get(docs[pk], field);
    if field in cat.equality && EqArg(cond).Some? {
      assert cond.Tests? ==> Passes(a, cond.tests[0]);
      SameIsIndexed(a, EqArg(cond).value, cat.equality[field]);
    } else if field in cat.equality && cond.Tests? && InArg(cond.tests).Some? {
      InPasses(a, cond.tests);
      var vs := InArg(cond.tests).value;
      var j :| 0 <= j < |vs| && Same(a, vs[j]);
      SameIsIndexed(a, vs[j], cat.equality[field]);
      assert pk in FindEq(docs, field, cat.equality[field], vs[j]);
    } else if CandidatesFor(docs, cat, field, cond).Some? {
      BoundsNeedNumber(a, cond.tests);
      BoundsPass(a.v.n, cond.tests);
      assert I.Flatten(a)[0] == a.v;
    }
  }

  /** The same for a whole filter: the candidates never lose a matching document. */
  lemma CandidatesKeepMatches(docs: map<Pk, Json>, cat: Catalog, f: Filter, pk: Pk)
    requires pk in docs && Matches(docs[pk], f)
    requires forall i :: 0 <= i < |Predicates(f.clauses)| ==>
      && IsDefined(Predicates(f.clauses)[i].1)
      && (Predicates(f.clauses)[i].0 in cat.ranges ==> NumberValued(Get(docs[pk], Predicates(f.clauses)[i].0)))
    ensures Intersection(docs, cat, Predicates(f.clauses)).Some? ==>
      pk in Intersection(docs, cat, Predicates(f.clauses)).value
  {
    PredicatesHold(docs[pk], f.clauses);
    InAll(docs, cat, Predicates(f.clauses), pk);
  }

  /** So testing only the candidates (the indexes may also hold expired documents) finds what testing every
      live document finds. */
  lemma CandidatesAreEnough(live: map<Pk, Json>, indexed: map<Pk, Json>, cat: Catalog, f: Filter)
    requires forall k :: k in live ==> k in indexed && indexed[k] == live[k]
    requires Intersection(indexed, cat, Predicates(f.clauses)).Some?
    requires forall i :: 0 <= i < |Predicates(f.clauses)| ==>
      && IsDefined(Predicates(f.clauses)[i].1)
      && (Predicates(f.clauses)[i].0 in cat.ranges ==> forall k :: k in live ==>
        NumberValued(Get(live[k], Predicates(f.clauses)[i].0)))
    ensures (set k | k in Intersection(indexed, cat, Predicates(f.clauses)).value && k in live && Matches(live[k], f))
            == (set k | k in live && Matches(live[k], f))
  {
    hide Intersection, Predicates, IsDefined, NumberValued, Matches;
    forall k | k in live && Matches(live[k], f) ensures k in Intersection(indexed, cat, Predicates(f.clauses)).value {
      CandidatesKeepMatches(indexed, cat, f, k);
    }
  }

  lemma {:induction false} InAll(docs: map<Pk, Json>, cat: Catalog, ps: seq<(string, Cond)>, pk: Pk)
    requires pk in docs
    requires forall i :: 0 <= i < |ps| ==>
      IsDefined(ps[i].1) && MatchCond(Get(docs[pk], ps[i].0), ps[i].1)
        && (ps[i].0 in cat.ranges ==> NumberValued(Get(docs[pk], ps[i].0)))
    ensures Intersection(docs, cat, ps).Some? ==> pk in Intersection(docs, cat, ps).value
  {
    hide CandidatesFor, MatchCond, IsDefined;
    if ps != [] {
      InAll(docs, cat, ps[..|ps| - 1], pk);
      OfferedIfMet(docs, cat, ps[|ps| - 1].0, ps[|ps| - 1].1, pk);
    }
  }

  lemma {:induction false} PredicatesHold(doc: Json, clauses: seq<Clause>)
    requires forall i :: 0 <= i < |clauses| ==> MatchesClause(doc, clauses[i])
    ensures forall i :: 0 <= i < |Predicates(clauses)| ==>
      MatchCond(Get(doc, Predicates(clauses)[i].0), Predicates(clauses)[i].1)
    decreases clauses
  {
    hide MatchCond;
    if clauses != [] {
      assert MatchesClause(doc, clauses[0]);
      assert forall i :: 0 <= i < |clauses[1..]| ==> clauses[1..][i] == clauses[i + 1];
      PredicatesHold(doc, clauses[1..]);
      if clauses[0].And? { PathsOfAllHold(doc, clauses[0].subs); }
    }
  }

  lemma {:induction false} PathsOfAllHold(doc: Json, subs: seq<Filter>)
    requires forall i :: 0 <= i < |subs| ==> Matches(doc, subs[i])
    ensures forall i :: 0 <= i < |PathsOfAll(subs)| ==>
      MatchCond(Get(doc, PathsOfAll(subs)[i].0), PathsOfAll(subs)[i].1)
    decreases subs
  {
    hide MatchCond;
    if subs != [] {
      assert Matches(doc, subs[0]);
      assert forall i :: 0 <= i < |subs[1..]| ==> subs[1..][i] == subs[i + 1];
      PathsOfAllHold(doc, subs[1..]);
      PathsOfHold(doc, subs[0].clauses);
    }
  }

  lemma {:induction false} PathsOfHold(doc: Json, clauses: seq<Clause>)
    requires forall i :: 0 <= i < |clauses| ==> MatchesClause(doc, clauses[i])
    ensures forall i :: 0 <= i < |PathsOf(clauses)| ==>
      MatchCond(Get(doc, PathsOf(clauses)[i].0), PathsOf(clauses)[i].1)
    decreases clauses
  {
    hide MatchCond;
    if clauses != [] {
      assert MatchesClause(doc, clauses[0]);
      assert forall i :: 0 <= i < |clauses[1..]| ==> clauses[1..][i] == clauses[i + 1];
      PathsOfHold(doc, clauses[1..]);
    }
  }

  /** Where a range index answers, a match is offered if and only if its value is a number. */
  lemma OfferedIffNumber(docs: map<Pk, Json>, cat: Catalog, field: string, tests: seq<Test>, pk: Pk)
    requires pk in docs && MatchCond(Get(docs[pk], field), Tests(tests))
    requires field in cat.ranges && !(LowerArg(tests).Unbounded? && UpperArg(tests).Unbounded?)
    requires field in cat.equality ==> EqArg(Tests(tests)).None? && InArg(tests).None?
    ensures CandidatesFor(docs, cat, field, Tests(tests)).Some?
    ensures pk in CandidatesFor(docs, cat, field, Tests(tests)).value <==> NumberValued(Get(docs[pk], field))
  {
    hide I.KeysOf, S.Within;
    var a := Get(docs[pk], field);
    BoundsNeedNumber(a, tests);
    assert I.Flatten(a) == [a.v];
    if NumberValued(a) {
      BoundsPass(a.v.n, tests);
      assert I.Flatten(a)[0] == a.v;
    }
  }

  /** So a match can be lost: null is not below zero, so it meets the bound, but it is in no
      range index. */
  lemma NullIsLost(pk: Pk)
    ensures var docs, cond := map[pk := Object(map["n" := I.One(I.Null)])], Tests([Gte(I.Num(0.0))]);
            && MatchCond(Get(docs[pk], "n"), cond)
            && CandidatesFor(docs, Catalog(map[], {"n"}), "n", cond) == Some({})
  {
    var docs, tests := map[pk := Object(map["n" := I.One(I.Null)])], [Gte(I.Num(0.0))];
    NullMeetsBound(docs[pk], tests);
    NullHasNoNumber(tests);
    assert Get(docs[pk], "n") == I.One(I.Null);
    assert FindRange(docs, "n", LowerArg(tests), UpperArg(tests)) == {};
  }

  lemma NullMeetsBound(doc: Json, tests: seq<Test>)
    requires tests == [Gte(I.Num(0.0))] && Get(doc, "n") == I.One(I.Null)
    ensures MatchCond(Get(doc, "n"), Tests(tests))
    ensures LowerArg(tests) == S.Inclusive(S.Num(0.0)) && UpperArg(tests) == S.Unbounded
  {
    assert tests[1..] == [];
    assert Passes(I.One(I.Null), tests[0]);
  }

  lemma NullHasNoNumber(tests: seq<Test>)
    ensures !HasWithin(I.One(I.Null), LowerArg(tests), UpperArg(tests))
  {
    assert I.Flatten(I.One(I.Null)) == [I.Null];
  }

  // ---- Walking a datetime column -----------------------------------------------------------------

  predicate IsHit(docs: map<Pk, Json>, f: Filter, e: S.Entry) { e.val in docs && Matches(docs[e.val], f) }

  /** The entries whose document is live and matches. */
  function HitsOf(entries: seq<S.Entry>, docs: map<Pk, Json>, f: Filter): seq<S.Entry> {
    if entries == [] then []
    else (if IsHit(docs, f, entries[0]) then [entries[0]] else []) + HitsOf(entries[1..], docs, f)
  }

  /** cheapEqChecks: the equality conditions that an index can answer by key. */
  function CheapChecks(ps: seq<(string, Cond)>, cat: Catalog): seq<(string, I.Value)> {
    if ps == [] then []
    else
      (if ps[0].0 in cat.equality && EqArg(ps[0].1).Some? then [(ps[0].0, EqArg(ps[0].1).value)] else [])
      + CheapChecks(ps[1..], cat)
  }

  /** No check rejects a matching document. */
  lemma {:induction false} ChecksPass(docs: map<Pk, Json>, cat: Catalog, ps: seq<(string, Cond)>, pk: Pk)
    requires pk in docs
    requires forall i :: 0 <= i < |ps| ==> IsDefined(ps[i].1) && MatchCond(Get(docs[pk], ps[i].0), ps[i].1)
    ensures forall i :: 0 <= i < |CheapChecks(ps, cat)| ==>
      var c := CheapChecks(ps, cat)[i]; c.0 in cat.equality && pk in FindEq(docs, c.0, cat.equality[c.0], c.1)
  {
    hide I.KeysOf;
    if ps != [] {
      ChecksPass(docs, cat, ps[1..], pk);
      if EqArg(ps[0].1).Some? && ps[0].0 in cat.equality {
        var a := Get(docs[pk], ps[0].0);
        assert ps[0].1.Tests? ==> Passes(a, ps[0].1.tests[0]);
        SameIsIndexed(a, EqArg(ps[0].1).value, cat.equality[ps[0].0]);
      }
    }
  }

  lemma {:induction false} ChecksAreIndexed(ps: seq<(string, Cond)>, cat: Catalog)
    ensures forall i :: 0 <= i < |CheapChecks(ps, cat)| ==> CheapChecks(ps, cat)[i].0 in cat.equality
  {
    if ps != [] { ChecksAreIndexed(ps[1..], cat); }
  }

  /** tryDtOrderedLimit, once it applies: walk the entries of the column in order, test the cheap checks
      on the key, then the document, and stop at the limit. `indexed` are the documents in the indexes:
      the live ones, and perhaps some that have expired. A limit of zero yields what a limit of one does. */
  method DtOrderedLimit(entries: seq<S.Entry>, live: map<Pk, Json>, indexed: map<Pk, Json>, cat: Catalog, f: Filter,
      skip: nat, limit: nat)
    returns (out: seq<S.Entry>)
    requires forall k :: k in live ==> k in indexed && indexed[k] == live[k]
    requires forall i :: 0 <= i < |Predicates(f.clauses)| ==> IsDefined(Predicates(f.clauses)[i].1)
    ensures out == S.Take(S.Drop(HitsOf(entries, live, f), skip), S.Limit(if limit == 0 then 1 else limit))
  {
    hide Matches, CheapChecks, Predicates, FindEq, IsDefined, MatchCond, HitsOf, S.Take, S.Drop;
    var checks := CheapChecks(Predicates(f.clauses), cat);
    ChecksAreIndexed(Predicates(f.clauses), cat);
    out := [];
    var skipped, n := 0, 0;
    assert entries[0..] == entries;
    ghost var upTo := if limit == 0 then 1 else limit;
    ghost var wanted := S.Take(S.Drop(HitsOf(entries, live, f), skip), S.Limit(upTo));
    assert out + wanted == wanted;
    while n < |entries|
      invariant 0 <= n <= |entries| && 0 <= skipped <= skip && |out| < upTo && (skipped < skip ==> out == [])
      invariant wanted == out + S.Take(S.Drop(HitsOf(entries[n..], live, f), skip - skipped), S.Limit(upTo - |out|))
    {
      var e := entries[n];
      assert entries[n..][1..] == entries[n + 1..];
      HitsStep(entries[n..], live, f, skip - skipped, upTo - |out|);
      n := n + 1;
      var passes := PassesChecks(checks, cat, indexed, e.val);
      if !passes || e.val !in live || !Matches(live[e.val], f) {
        if e.val in live && Matches(live[e.val], f) { MatchPasses(live, indexed, cat, f, e.val); }
        continue;
      }
      if skipped < skip {
        skipped := skipped + 1;
        continue;
      }
      PushStep(out, e, HitsOf(entries[n..], live, f), upTo - |out| - 1);
      out := out + [e];
      if |out| >= limit { return; }
    }
    assert entries[n..] == [];
    WalkEnd(live, f, skip - skipped, upTo - |out|);
    assert out + [] == out;
  }

  lemma PushStep(out: seq<S.Entry>, e: S.Entry, rest: seq<S.Entry>, left: nat)
    ensures out + ([e] + S.Take(S.Drop(rest, 0), S.Limit(left))) == out + [e] + S.Take(S.Drop(rest, 0), S.Limit(left))
    ensures left == 0 ==> out + [e] + S.Take(S.Drop(rest, 0), S.Limit(left)) == out + [e]
  {
  }

  lemma WalkEnd(docs: map<Pk, Json>, f: Filter, skip: nat, left: nat)
    ensures S.Take(S.Drop(HitsOf([], docs, f), skip), S.Limit(left)) == []
  {
  }

  lemma HitsStep(entries: seq<S.Entry>, docs: map<Pk, Json>, f: Filter, skip: nat, left: nat)
    requires entries != [] && left > 0
    ensures var rest := HitsOf(entries[1..], docs, f);
            S.Take(S.Drop(HitsOf(entries, docs, f), skip), S.Limit(left))
            == if !IsHit(docs, f, entries[0]) then S.Take(S.Drop(rest, skip), S.Limit(left))
               else if skip > 0 then S.Take(S.Drop(rest, skip - 1), S.Limit(left))
               else [entries[0]] + S.Take(S.Drop(rest, 0), S.Limit(left - 1))
  {
    hide HitsOf, IsHit, S.Take, S.Drop;
    HitsUnfold(entries, docs, f);
    var rest := HitsOf(entries[1..], docs, f);
    S.ScanStep([entries[0]] + rest, skip, S.Limit(left));
    assert ([entries[0]] + rest)[1..] == rest;
  }

  lemma HitsUnfold(entries: seq<S.Entry>, docs: map<Pk, Json>, f: Filter)
    requires entries != []
    ensures HitsOf(entries, docs, f) == if IsHit(docs, f, entries[0]) then [entries[0]] + HitsOf(entries[1..], docs, f)
      else HitsOf(entries[1..], docs, f)
  {
    hide IsHit;
  }

  method PassesChecks(checks: seq<(string, I.Value)>, cat: Catalog, indexed: map<Pk, Json>, pk: Pk) returns (ok: bool)
    requires forall i :: 0 <= i < |checks| ==> checks[i].0 in cat.equality
    ensures ok <==> forall i :: 0 <= i < |checks| ==>
      pk in FindEq(indexed, checks[i].0, cat.equality[checks[i].0], checks[i].1)
  {
    for i := 0 to |checks|
      invariant forall j :: 0 <= j < i ==> pk in FindEq(indexed, checks[j].0, cat.equality[checks[j].0], checks[j].1)
    {
      if pk !in FindEq(indexed, checks[i].0, cat.equality[checks[i].0], checks[i].1) { return false; }
    }
    ok := true;
  }

  lemma MatchPasses(live: map<Pk, Json>, indexed: map<Pk, Json>, cat: Catalog, f: Filter, pk: Pk)
    requires pk in live && pk in indexed && indexed[pk] == live[pk] && Matches(live[pk], f)
    requires forall i :: 0 <= i < |Predicates(f.clauses)| ==> IsDefined(Predicates(f.clauses)[i].1)
    ensures forall i :: 0 <= i < |CheapChecks(Predicates(f.clauses), cat)| ==>
      var c := CheapChecks(Predicates(f.clauses), cat)[i];
      c.0 in cat.equality && pk in FindEq(indexed, c.0, cat.equality[c.0], c.1)
  {
    hide IsDefined, FindEq, CheapChecks;
    PredicatesHold(live[pk], f.clauses);
    ChecksPass(indexed, cat, Predicates(f.clauses), pk);
  }

  // ---- ... is filtering and sorting --------------------------------------------------------------

  lemma {:induction false} HitsOfAppend(a: seq<S.Entry>, b: seq<S.Entry>, docs: map<Pk, Json>, f: Filter)
    ensures HitsOf(a + b, docs, f) == HitsOf(a, docs, f) + HitsOf(b, docs, f)
  {
    if a == [] {
      assert a + b == b;
    } else {
      assert (a + b)[1..] == a[1..] + b;
      HitsOfAppend(a[1..], b, docs, f);
    }
  }

  lemma {:induction false} HitsOfReverse(entries: seq<S.Entry>, docs: map<Pk, Json>, f: Filter)
    ensures HitsOf(S.Reverse(entries), docs, f) == S.Reverse(HitsOf(entries, docs, f))
  {
    hide IsHit;
    if entries != [] {
      HitsOfReverse(entries[1..], docs, f);
      HitsOfAppend(S.Reverse(entries[1..]), [entries[0]], docs, f);
      var rest := HitsOf(entries[1..], docs, f);
      assert [entries[0]][1..] == [];
      if IsHit(docs, f, entries[0]) {
        assert HitsOf([entries[0]], docs, f) == [entries[0]];
        assert HitsOf(entries, docs, f) == [entries[0]] + rest && ([entries[0]] + rest)[1..] == rest;
      } else {
        assert HitsOf([entries[0]], docs, f) == [];
        assert HitsOf(entries, docs, f) == [] + rest == rest;
      }
    }
  }

  lemma PrependSorted(e: S.Entry, rest: seq<S.Entry>)
    requires S.IsSorted(rest) && forall i :: 0 <= i < |rest| ==> !S.Less(rest[i], e)
    ensures S.IsSorted([e] + rest)
  {
    hide S.Less;
  }

  lemma PrependNone()
    ensures S.IsSorted([])
  {
  }

  lemma {:induction false} HitsAreSorted(entries: seq<S.Entry>, docs: map<Pk, Json>, f: Filter)
    requires S.IsSorted(entries)
    ensures S.IsSorted(HitsOf(entries, docs, f))
    ensures forall e :: e in HitsOf(entries, docs, f) ==> e in entries
  {
    hide S.Less, IsHit, S.IsSorted;
    if entries == [] {
      PrependNone();
    } else {
      S.SortedTail(entries);
      HitsAreSorted(entries[1..], docs, f);
      var rest := HitsOf(entries[1..], docs, f);
      forall i | 0 <= i < |rest| ensures !S.Less(rest[i], entries[0]) {
        assert rest[i] in entries[1..];
        S.HeadIsLeast(entries, rest[i]);
      }
      PrependSorted(entries[0], rest);
      assert [] + rest == rest;
    }
  }

  lemma {:induction false} HitsCount(entries: seq<S.Entry>, docs: map<Pk, Json>, f: Filter, e: S.Entry)
    ensures multiset(HitsOf(entries, docs, f))[e] == if IsHit(docs, f, e) then multiset(entries)[e] else 0
  {
    hide IsHit;
    if entries != [] {
      HitsCount(entries[1..], docs, f, e);
      S.TailOf(entries);
    }
  }

  lemma {:induction false} FilterIsSorted(es: seq<S.Entry>, lower: S.Bound, upper: S.Bound)
    requires S.IsSorted(es)
    ensures S.IsSorted(S.Filter(es, lower, upper))
  {
    hide S.First, S.After, S.Filter;
    S.FilterIsSlice(es, lower, upper);
  }

  lemma {:induction false} FilterCount(es: seq<S.Entry>, lower: S.Bound, upper: S.Bound, e: S.Entry)
    ensures multiset(S.Filter(es, lower, upper))[e] == if S.Within(lower, upper, e) then multiset(es)[e] else 0
  {
    hide S.Within;
    if es != [] {
      FilterCount(es[1..], lower, upper, e);
      S.TailOf(es);
    }
  }

  /** The walk meets the matching documents exactly in the order of (column value, key): whatever sorted
      sequence `all` lists the live documents that match, each once, with its value in the bounds. */
  lemma WalkIsFilterThenSort(list: seq<S.Entry>, docs: map<Pk, Json>, f: Filter, q: S.Query, all: seq<S.Entry>)
    requires S.IsSorted(list) && S.IsSorted(all) && q.offset == 0 && q.count == S.All
    requires forall e :: multiset(all)[e] == if S.Within(q.lower, q.upper, e)
      && IsHit(docs, f, e) then multiset(list)[e] else 0
    ensures HitsOf(S.RangeOf(list, q), docs, f) == if q.reverse then S.Reverse(all) else all
  {
    hide S.IsSorted, S.Within, IsHit, S.Filter, HitsOf;
    var inside := S.Filter(list, q.lower, q.upper);
    FilterIsSorted(list, q.lower, q.upper);
    HitsAreSorted(inside, docs, f);
    forall e ensures multiset(HitsOf(inside, docs, f))[e] == multiset(all)[e] {
      FilterCount(list, q.lower, q.upper, e);
      HitsCount(inside, docs, f, e);
    }
    assert multiset(HitsOf(inside, docs, f)) == multiset(all);
    S.SortedIsUnique(HitsOf(inside, docs, f), all);
    HitsOfReverse(inside, docs, f);
    assert S.RangeOf(list, q) == if q.reverse then S.Reverse(inside) else inside;
  }

  /** The live documents that match and have a value of column `c` within the bounds, each once with its own
      value, in the order of (value, key). */
  ghost predicate IsAnswer(all: seq<S.Entry>, stamps: map<Pk, D.Dt>, c: string, live: map<Pk, Json>, f: Filter,
      q: S.Query) {
    S.IsSorted(all) && forall e :: AnswerAt(all, stamps, c, live, f, q, e)
  }

  ghost predicate AnswerAt(
      all: seq<S.Entry>, stamps: map<Pk, D.Dt>, c: string, live: map<Pk, Json>, f: Filter, q: S.Query, e: S.Entry)
  {
    multiset(all)[e] ==
    if e.key.Num? && e.val in stamps && c in stamps[e.val] && stamps[e.val][c] == D.Ms(e.key.n)
      && S.Within(q.lower, q.upper, e) && IsHit(live, f, e) then 1
    else 0
  }

  lemma ColumnAnswers(
      cols: map<string, D.Column>, stamps: map<Pk, D.Dt>, c: string, live: map<Pk, Json>, f: Filter, q: S.Query,
        all: seq<S.Entry>)
    requires D.ColsOk(cols, stamps) && q.offset == 0 && q.count == S.All && IsAnswer(all, stamps, c, live, f, q)
    ensures HitsOf(if c in cols then S.RangeOf(cols[c].list, q) else [], live, f) == if q.reverse then S.Reverse(all)
      else all
  {
    hide S.IsSorted, S.Within, IsHit, S.RangeOf, HitsOf;
    if c in cols {
      assert D.ColumnOk(cols[c]);
      forall e ensures
        multiset(all)[e] == if S.Within(q.lower, q.upper, e) && IsHit(live, f, e) then multiset(cols[c].list)[e] else 0
      {
        assert AnswerAt(all, stamps, c, live, f, q, e) && D.EntryOk(cols[c], e) && D.HeldOk(cols, stamps, c, e.val);
      }
      WalkIsFilterThenSort(cols[c].list, live, f, q, all);
    } else {
      forall e ensures multiset(all)[e] == 0 {
        assert AnswerAt(all, stamps, c, live, f, q, e) && D.HeldOk(cols, stamps, c, e.val);
      }
      NoneListed(all);
      NothingHit(live, f);
    }
  }

  lemma NoneListed(all: seq<S.Entry>)
    requires forall e :: multiset(all)[e] == 0
    ensures all == [] && S.Reverse(all) == []
  {
    assert multiset(all) == multiset{};
    assert |all| == |multiset(all)|;
  }

  lemma NothingHit(live: map<Pk, Json>, f: Filter)
    ensures HitsOf([], live, f) == []
  {
  }

  /** The fast path from the column to the rows: of the answer, in the order asked for, what follows the first
      `skip`, at most `limit`. */
  method QueryByColumn(dt: D.DtIndex, c: string, q: S.Query, live: map<Pk, Json>, indexed: map<Pk, Json>, cat: Catalog,
                       f: Filter, skip: nat, limit: nat, ghost all: seq<S.Entry>)
      returns (out: seq<S.Entry>)
    requires dt.Valid() && q.offset == 0 && q.count == S.All && IsAnswer(all, dt.byKey, c, live, f, q)
    requires forall k :: k in live ==> k in indexed && indexed[k] == live[k]
    requires forall i :: 0 <= i < |Predicates(f.clauses)| ==> IsDefined(Predicates(f.clauses)[i].1)
    ensures out
      == S.Take(S.Drop(if q.reverse then S.Reverse(all) else all, skip), S.Limit(if limit == 0 then 1 else limit))
  {
    hide IsAnswer, Predicates, IsDefined, S.RangeOf, HitsOf, S.Take, S.Drop;
    var entries := dt.Range(c, q);
    ColumnAnswers(dt.cols, dt.byKey, c, live, f, q, all);
    out := DtOrderedLimit(entries, live, indexed, cat, f, skip, limit);
  }
}
