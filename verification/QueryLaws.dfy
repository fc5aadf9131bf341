/** The algebra of answers (query.ts): what the logical operators and the tests do to the set of
    documents that match. */
module QueryLaws {
  import opened Bytes
  import I = Indexes
  import S = Sorted
  import opened Query

  /** The keys of the matching documents. */
  ghost function Hits(docs: map<Pk, Json>, f: Filter): set<Pk> { set k | k in docs && Matches(docs[k], f) }

  function Only(c: Clause): Filter { Filter([c]) }

  /** The keys of the documents whose field meets all the tests. */
  ghost function Met(docs: map<Pk, Json>, field: string, tests: seq<Test>): set<Pk> {
    Hits(docs, Only(Path(field, Tests(tests))))
  }

  lemma OnlyMeans(doc: Json, c: Clause)
    ensures Matches(doc, Only(c)) <==> MatchesClause(doc, c)
  {
    if MatchesClause(doc, c) {
      forall i | 0 <= i < |Only(c).clauses| ensures MatchesClause(doc, Only(c).clauses[i]) {}
    } else {
      assert !MatchesClause(doc, Only(c).clauses[0]);
    }
  }

  // ---- Filters -----------------------------------------------------------------------------

  /** The clauses of a filter are met together; a filter without clauses is met by all. */
  lemma ClausesIntersect(docs: map<Pk, Json>, a: seq<Clause>, b: seq<Clause>)
    ensures Hits(docs, Filter(a + b)) == Hits(docs, Filter(a)) * Hits(docs, Filter(b))
    ensures Hits(docs, Filter([])) == docs.Keys
  {
    forall k | k in docs
      ensures Matches(docs[k], Filter(a + b)) <==> Matches(docs[k], Filter(a)) && Matches(docs[k], Filter(b))
    {
      var doc := docs[k];
      forall i | 0 <= i < |a| ensures (a + b)[i] == a[i] {}
      forall i | 0 <= i < |b| ensures (a + b)[|a| + i] == b[i] {}
      if Matches(doc, Filter(a + b)) {
        forall i | 0 <= i < |a| ensures MatchesClause(doc, a[i]) { assert MatchesClause(doc, (a + b)[i]); }
        forall i | 0 <= i < |b| ensures MatchesClause(doc, b[i]) { assert MatchesClause(doc, (a + b)[|a| + i]); }
      }
      if Matches(doc, Filter(a)) && Matches(doc, Filter(b)) {
        forall i | 0 <= i < |a + b| ensures MatchesClause(doc, (a + b)[i]) {
          if i < |a| { assert MatchesClause(doc, Filter(a).clauses[i]); } else {
            assert MatchesClause(doc, Filter(b).clauses[i - |a|]);
          }
        }
      }
    }
  }

  /** `$or` is the union of its branches, and nothing without any. */
  lemma OrIsUnion(docs: map<Pk, Json>, fs: seq<Filter>, gs: seq<Filter>, f: Filter)
    ensures Hits(docs, Only(Or(fs + gs))) == Hits(docs, Only(Or(fs))) + Hits(docs, Only(Or(gs)))
    ensures Hits(docs, Only(Or([f]))) == Hits(docs, f)
    ensures Hits(docs, Only(Or([]))) == {}
  {
    forall k | k in docs
      ensures Matches(docs[k], Only(Or(fs + gs))) <==> Matches(docs[k], Only(Or(fs))) || Matches(docs[k], Only(Or(gs)))
      ensures Matches(docs[k], Only(Or([f]))) <==> Matches(docs[k], f)
      ensures !Matches(docs[k], Only(Or([])))
    {
      var doc := docs[k];
      OnlyMeans(doc, Or(fs + gs));
      OnlyMeans(doc, Or(fs));
      OnlyMeans(doc, Or(gs));
      OnlyMeans(doc, Or([f]));
      OnlyMeans(doc, Or([]));
      OrAppend(doc, fs, gs);
      if Matches(doc, f) { assert Matches(doc, [f][0]); }
    }
  }

  lemma OrAppend(doc: Json, fs: seq<Filter>, gs: seq<Filter>)
    ensures MatchesClause(doc, Or(fs + gs)) <==> MatchesClause(doc, Or(fs)) || MatchesClause(doc, Or(gs))
  {
    if MatchesClause(doc, Or(fs)) {
      var i :| 0 <= i < |fs| && Matches(doc, fs[i]);
      assert (fs + gs)[i] == fs[i];
    }
    if MatchesClause(doc, Or(gs)) {
      var i :| 0 <= i < |gs| && Matches(doc, gs[i]);
      assert (fs + gs)[|fs| + i] == gs[i];
    }
    if MatchesClause(doc, Or(fs + gs)) {
      var i :| 0 <= i < |fs + gs| && Matches(doc, (fs + gs)[i]);
      if i < |fs| { assert fs[i] == (fs + gs)[i]; } else { assert gs[i - |fs|] == (fs + gs)[i]; }
    }
  }

  /** `$nor` is what is outside `$or`, and `$not` what is outside its filter. */
  lemma NegationsAreComplements(docs: map<Pk, Json>, subs: seq<Filter>, f: Filter)
    ensures Hits(docs, Only(Nor(subs))) == docs.Keys - Hits(docs, Only(Or(subs)))
    ensures Hits(docs, Only(Not(f))) == docs.Keys - Hits(docs, f)
  {
    forall k | k in docs
      ensures Matches(docs[k], Only(Nor(subs))) <==> !Matches(docs[k], Only(Or(subs)))
      ensures Matches(docs[k], Only(Not(f))) <==> !Matches(docs[k], f)
    {
      OnlyMeans(docs[k], Nor(subs));
      OnlyMeans(docs[k], Or(subs));
      OnlyMeans(docs[k], Not(f));
    }
  }

  /** `$and` is the intersection of its branches, everything without any; so by De Morgan's law it is
      what is outside the `$or` of the negated branches. */
  lemma AndIsIntersection(docs: map<Pk, Json>, fs: seq<Filter>, gs: seq<Filter>, f: Filter)
    ensures Hits(docs, Only(And(fs + gs))) == Hits(docs, Only(And(fs))) * Hits(docs, Only(And(gs)))
    ensures Hits(docs, Only(And([f]))) == Hits(docs, f)
    ensures Hits(docs, Only(And([]))) == docs.Keys
  {
    forall k | k in docs
      ensures Matches(docs[k], Only(And(fs + gs)))
              <==> Matches(docs[k], Only(And(fs))) && Matches(docs[k], Only(And(gs)))
      ensures Matches(docs[k], Only(And([f]))) <==> Matches(docs[k], f)
      ensures Matches(docs[k], Only(And([])))
    {
      var doc := docs[k];
      OnlyMeans(doc, And(fs + gs));
      OnlyMeans(doc, And(fs));
      OnlyMeans(doc, And(gs));
      OnlyMeans(doc, And([f]));
      OnlyMeans(doc, And([]));
      AndAppend(doc, fs, gs);
      assert [f][0] == f;
    }
  }

  lemma AndAppend(doc: Json, fs: seq<Filter>, gs: seq<Filter>)
    ensures MatchesClause(doc, And(fs + gs)) <==> MatchesClause(doc, And(fs)) && MatchesClause(doc, And(gs))
  {
    assert forall i :: 0 <= i < |fs| ==> (fs + gs)[i] == fs[i];
    assert forall i :: 0 <= i < |gs| ==> (fs + gs)[|fs| + i] == gs[i];
    if MatchesClause(doc, And(fs + gs)) {
      forall i | 0 <= i < |fs| ensures Matches(doc, fs[i]) { assert Matches(doc, (fs + gs)[i]); }
      forall i | 0 <= i < |gs| ensures Matches(doc, gs[i]) { assert Matches(doc, (fs + gs)[|fs| + i]); }
    }
    if MatchesClause(doc, And(fs)) && MatchesClause(doc, And(gs)) {
      forall i | 0 <= i < |fs + gs| ensures Matches(doc, (fs + gs)[i]) {
        if i < |fs| { assert Matches(doc, fs[i]); } else { assert Matches(doc, gs[i - |fs|]); }
      }
    }
  }

  // ---- Tests -------------------------------------------------------------------------------

  lemma MetMeans(doc: Json, field: string, tests: seq<Test>)
    ensures Matches(doc, Only(Path(field, Tests(tests))))
            <==> forall i :: 0 <= i < |tests| ==> Passes(Get(doc, field), tests[i])
  {
    OnlyMeans(doc, Path(field, Tests(tests)));
  }

  lemma OneMeans(docs: map<Pk, Json>, field: string, test: Test)
    ensures Met(docs, field, [test]) == set k | k in docs && Passes(Get(docs[k], field), test)
  {
    hide Passes;
    forall k | k in docs ensures k in Met(docs, field, [test]) <==> Passes(Get(docs[k], field), test) {
      MetMeans(docs[k], field, [test]);
      assert [test][0] == test;
    }
  }

  /** Tests of one field are met together; a literal is the test for equality. */
  lemma TestsIntersect(docs: map<Pk, Json>, field: string, a: seq<Test>, b: seq<Test>, v: I.Value)
    ensures Met(docs, field, a + b) == Met(docs, field, a) * Met(docs, field, b)
    ensures Met(docs, field, []) == docs.Keys
    ensures Hits(docs, Only(Path(field, Literal(v)))) == Met(docs, field, [Eq(v)])
  {
    hide Passes, Same;
    forall k | k in docs
      ensures k in Met(docs, field, a + b) <==> k in Met(docs, field, a) && k in Met(docs, field, b)
      ensures k in Met(docs, field, [])
      ensures k in Hits(docs, Only(Path(field, Literal(v)))) <==> k in Met(docs, field, [Eq(v)])
    {
      MetMeans(docs[k], field, a + b);
      MetMeans(docs[k], field, a);
      MetMeans(docs[k], field, b);
      MetMeans(docs[k], field, []);
      MetMeans(docs[k], field, [Eq(v)]);
      OnlyMeans(docs[k], Path(field, Literal(v)));
      EqPasses(Get(docs[k], field), v);
      PassAppend(Get(docs[k], field), a, b);
      assert [Eq(v)][0] == Eq(v);
    }
  }

  lemma EqPasses(a: I.Field, v: I.Value)
    ensures Passes(a, Eq(v)) <==> Same(a, v)
  {
  }

  lemma PassAppend(f: I.Field, a: seq<Test>, b: seq<Test>)
    ensures (forall i :: 0 <= i < |a + b| ==> Passes(f, (a + b)[i]))
            <==> (forall i :: 0 <= i < |a| ==> Passes(f, a[i])) && forall i :: 0 <= i < |b| ==> Passes(f, b[i])
  {
    hide Passes;
    if forall i :: 0 <= i < |a + b| ==> Passes(f, (a + b)[i]) {
      forall i | 0 <= i < |a| ensures Passes(f, a[i]) { assert Passes(f, (a + b)[i]); }
      forall i | 0 <= i < |b| ensures Passes(f, b[i]) { assert Passes(f, (a + b)[|a| + i]); }
    }
  }

  /** `$ne` is what is outside `$eq`, `$nin` what is outside `$in`, and `$exists: false` what is outside
      `$exists: true`. */
  lemma TestsAreComplements(docs: map<Pk, Json>, field: string, v: I.Value, vs: seq<I.Value>)
    ensures Met(docs, field, [Ne(v)]) == docs.Keys - Met(docs, field, [Eq(v)])
    ensures Met(docs, field, [Nin(vs)]) == docs.Keys - Met(docs, field, [In(vs)])
    ensures Met(docs, field, [Exists(false)]) == docs.Keys - Met(docs, field, [Exists(true)])
  {
    OneMeans(docs, field, Ne(v));
    OneMeans(docs, field, Eq(v));
    OneMeans(docs, field, Nin(vs));
    OneMeans(docs, field, In(vs));
    OneMeans(docs, field, Exists(true));
    OneMeans(docs, field, Exists(false));
  }

  /** `$in` is the union of `$eq` over its values. */
  lemma InIsUnionOfEq(docs: map<Pk, Json>, field: string, us: seq<I.Value>, vs: seq<I.Value>, v: I.Value)
    ensures Met(docs, field, [In(us + vs)]) == Met(docs, field, [In(us)]) + Met(docs, field, [In(vs)])
    ensures Met(docs, field, [In([v])]) == Met(docs, field, [Eq(v)])
    ensures Met(docs, field, [In([])]) == {}
  {
    hide Same;
    OneMeans(docs, field, In(us + vs));
    OneMeans(docs, field, In(us));
    OneMeans(docs, field, In(vs));
    OneMeans(docs, field, In([v]));
    OneMeans(docs, field, In([]));
    OneMeans(docs, field, Eq(v));
    forall k | k in docs
      ensures Passes(Get(docs[k], field), In(us + vs))
              <==> Passes(Get(docs[k], field), In(us)) || Passes(Get(docs[k], field), In(vs))
      ensures Passes(Get(docs[k], field), In([v])) <==> Passes(Get(docs[k], field), Eq(v))
    {
      InAppend(Get(docs[k], field), us, vs);
      if Same(Get(docs[k], field), v) { assert Same(Get(docs[k], field), [v][0]); }
    }
  }

  lemma InAppend(a: I.Field, us: seq<I.Value>, vs: seq<I.Value>)
    ensures Passes(a, In(us + vs)) <==> Passes(a, In(us)) || Passes(a, In(vs))
  {
    hide Same;
    if Passes(a, In(us)) {
      var i :| 0 <= i < |us| && Same(a, us[i]);
      assert (us + vs)[i] == us[i];
    }
    if Passes(a, In(vs)) {
      var i :| 0 <= i < |vs| && Same(a, vs[i]);
      assert (us + vs)[|us| + i] == vs[i];
    }
    if Passes(a, In(us + vs)) {
      var i :| 0 <= i < |us + vs| && Same(a, (us + vs)[i]);
      if i < |us| { assert us[i] == (us + vs)[i]; } else { assert vs[i - |us|] == (us + vs)[i]; }
    }
  }

  /** A document that holds a value is found under it and under no other; one without the field only
      by its absence. */
  lemma EqFindsTheValue(docs: map<Pk, Json>, field: string, k: Pk, v: I.Value, w: I.Value)
    requires k in docs && !v.Json? && v != w
    ensures Get(docs[k], field) == I.One(v) ==>
              && k in Met(docs, field, [Eq(v)]) && k !in Met(docs, field, [Eq(w)])
              && k in Met(docs, field, [Exists(true)]) && k !in Met(docs, field, [Contains(v)])
    ensures Get(docs[k], field) == I.Missing ==>
              k !in Met(docs, field, [Exists(true)]) && (k in Met(docs, field, [Eq(v)]) <==> v == I.Undef)
    ensures Get(docs[k], field).Many? ==>
              && k in Met(docs, field, [Exists(true)]) && k !in Met(docs, field, [Eq(v)])
              && (k in Met(docs, field, [Contains(v)]) <==> v in Get(docs[k], field).vs)
  {
    OneMeans(docs, field, Eq(v));
    OneMeans(docs, field, Eq(w));
    OneMeans(docs, field, Exists(true));
    OneMeans(docs, field, Contains(v));
  }

  /** Of the documents with a number in the field: `$gt` splits into what is above, `$gte` adds the
      bound itself, and `$lt`, `$lte` are what is outside them. */
  lemma OrderOfNumbers(docs: map<Pk, Json>, field: string, n: real, m: real)
    requires forall k :: k in docs ==> Get(docs[k], field).One? && Get(docs[k], field).v.Num?
    requires m < n
    ensures Met(docs, field, [Gte(I.Num(n))]) == Met(docs, field, [Gt(I.Num(n))]) + Met(docs, field, [Eq(I.Num(n))])
    ensures Met(docs, field, [Gt(I.Num(n))]) !! Met(docs, field, [Eq(I.Num(n))])
    ensures Met(docs, field, [Lt(I.Num(n))]) == docs.Keys - Met(docs, field, [Gte(I.Num(n))])
    ensures Met(docs, field, [Lte(I.Num(n))]) == docs.Keys - Met(docs, field, [Gt(I.Num(n))])
    ensures Met(docs, field, [Gte(I.Num(n))]) + Met(docs, field, [Eq(I.Num(n))]) <= Met(docs, field, [Gt(I.Num(m))])
  {
    hide Met, Get;
    OneMeans(docs, field, Gt(I.Num(n)));
    OneMeans(docs, field, Gt(I.Num(m)));
    OneMeans(docs, field, Gte(I.Num(n)));
    OneMeans(docs, field, Lt(I.Num(n)));
    OneMeans(docs, field, Lte(I.Num(n)));
    OneMeans(docs, field, Eq(I.Num(n)));
  }

  // ---- What the indexes offer --------------------------------------------------------------

  predicate HasOneOf(sparse: bool, f: I.Field, vs: seq<I.Value>) {
    exists i :: 0 <= i < |vs| && I.HasKey(I.Equality, sparse, f, vs[i])
  }

  /** An equality index offers exactly the documents that have the value in the field, as it is or in a
      list; for `$in` those of any of its values. */
  lemma EqualityOffers(docs: map<Pk, Json>, cat: Catalog, field: string, v: I.Value, vs: seq<I.Value>)
    requires field in cat.equality
    ensures var held := set k | k in docs && docs[k].Object?
                                && I.HasKey(I.Equality, cat.equality[field], Get(docs[k], field), v);
            && CandidatesFor(docs, cat, field, Literal(v)) == Some(held)
            && CandidatesFor(docs, cat, field, Tests([Eq(v)])) == Some(held)
    ensures CandidatesFor(docs, cat, field, Tests([In(vs)]))
            == Some(set k | k in docs && docs[k].Object? && HasOneOf(cat.equality[field], Get(docs[k], field), vs))
  {
    hide I.KeysOf, I.HasKey;
    var sparse := cat.equality[field];
    forall k, x | k in docs
      ensures x in I.KeysOf(I.Equality, sparse, Get(docs[k], field))
              <==> I.HasKey(I.Equality, sparse, Get(docs[k], field), x)
    {
      I.KeysAre(I.Equality, sparse, Get(docs[k], field), x);
    }
    assert FindEq(docs, field, sparse, v) == set k | k in docs && docs[k].Object?
      && I.HasKey(I.Equality, sparse, Get(docs[k], field), v);
    assert EqArg(Tests([Eq(v)])) == Some(v);
    var some := Tests([In(vs)]);
    assert InArg(some.tests) == Some(vs) && EqArg(some).None?;
    var found := set k, x | x in vs && k in FindEq(docs, field, sparse, x) :: k;
    forall k ensures k in found <==> k in docs && docs[k].Object? && HasOneOf(sparse, Get(docs[k], field), vs) {
      if k in found {
        var x :| x in vs && k in FindEq(docs, field, sparse, x);
        var i :| 0 <= i < |vs| && vs[i] == x;
      }
      if k in docs && docs[k].Object? && HasOneOf(sparse, Get(docs[k], field), vs) {
        var i :| 0 <= i < |vs| && I.HasKey(I.Equality, sparse, Get(docs[k], field), vs[i]);
        assert vs[i] in I.KeysOf(I.Equality, sparse, Get(docs[k], field));
        assert k in FindEq(docs, field, sparse, vs[i]);
      }
    }
    assert found == set k | k in docs && docs[k].Object? && HasOneOf(sparse, Get(docs[k], field), vs);
    assert CandidatesFor(docs, cat, field, some) == Some(found);
  }

  /** A range index offers, for one lower and one upper bound, exactly the documents that have a number
      between them in the field, as it is or in a list. */
  lemma RangeOffers(docs: map<Pk, Json>, cat: Catalog, field: string, lower: Test, upper: Test, k: Pk)
    requires field in cat.ranges && field !in cat.equality && k in docs
    requires (lower.Gt? || lower.Gte?) && lower.v.Num? && (upper.Lt? || upper.Lte?) && upper.v.Num?
    ensures CandidatesFor(docs, cat, field, Tests([lower, upper])).Some?
    ensures k in CandidatesFor(docs, cat, field, Tests([lower, upper])).value <==>
            && docs[k].Object?
            && exists x: real ::
                 && I.HasKey(I.Range, true, Get(docs[k], field), I.Num(x))
                 && (if lower.Gt? then x > lower.v.n else x >= lower.v.n)
                 && (if upper.Lt? then x < upper.v.n else x <= upper.v.n)
  {
    hide I.HasKey, LowerArg, UpperArg;
    var tests, f := [lower, upper], Get(docs[k], field);
    var lo := if lower.Gt? then S.Exclusive(S.Num(lower.v.n)) else S.Inclusive(S.Num(lower.v.n));
    var hi := if upper.Lt? then S.Exclusive(S.Num(upper.v.n)) else S.Inclusive(S.Num(upper.v.n));
    BoundsOfTwo(lower, upper);
    if HasWithin(f, lo, hi) {
      var i :| 0 <= i < |I.Flatten(f)| && I.Flatten(f)[i].Num?
               && S.Within(lo, hi, S.Entry(S.Num(I.Flatten(f)[i].n), ""));
      InField(f, i);
    }
    if x: real :| I.HasKey(I.Range, true, f, I.Num(x))
                  && (if lower.Gt? then x > lower.v.n else x >= lower.v.n)
                  && (if upper.Lt? then x < upper.v.n else x <= upper.v.n)
    {
      var i := FromField(f, x);
      assert S.Within(lo, hi, S.Entry(S.Num(I.Flatten(f)[i].n), ""));
    }
  }

  lemma BoundsOfTwo(lower: Test, upper: Test)
    requires (lower.Gt? || lower.Gte?) && lower.v.Num? && (upper.Lt? || upper.Lte?) && upper.v.Num?
    ensures LowerArg([lower, upper])
            == if lower.Gt? then S.Exclusive(S.Num(lower.v.n)) else S.Inclusive(S.Num(lower.v.n))
    ensures UpperArg([lower, upper])
            == if upper.Lt? then S.Exclusive(S.Num(upper.v.n)) else S.Inclusive(S.Num(upper.v.n))
  {
    assert [lower, upper][1..] == [upper] && [upper][1..] == [];
    assert LowerArg([]) == S.Unbounded && UpperArg([]) == S.Unbounded;
    BoundsOfOne(upper);
  }

  lemma BoundsOfOne(upper: Test)
    requires (upper.Lt? || upper.Lte?) && upper.v.Num?
    ensures LowerArg([upper]) == S.Unbounded
    ensures UpperArg([upper]) == if upper.Lt? then S.Exclusive(S.Num(upper.v.n)) else S.Inclusive(S.Num(upper.v.n))
  {
    assert [upper][1..] == [];
    assert LowerArg([]) == S.Unbounded && UpperArg([]) == S.Unbounded;
  }

  lemma InField(f: I.Field, i: nat)
    requires i < |I.Flatten(f)| && I.Flatten(f)[i].Num?
    ensures I.HasKey(I.Range, true, f, I.Flatten(f)[i])
  {
  }

  lemma FromField(f: I.Field, x: real) returns (i: nat)
    requires I.HasKey(I.Range, true, f, I.Num(x))
    ensures i < |I.Flatten(f)| && I.Flatten(f)[i] == I.Num(x)
  {
    i :| i < |I.Flatten(f)| && I.Flatten(f)[i] == I.Num(x);
  }
}
