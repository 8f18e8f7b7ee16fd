/** The filter pass of grepAxioms and the collection pass of sedAxioms
    (lib/owl.js:337-404), over the axioms listed in the order the store hands
    them out; and the effect on the axiom set of submitting the collected
    additions and removals in either order. */
module Transform {
  import opened Terms
  import opened Collections
  import opened Changes

  /** Whether grepAxioms keeps `ax`: the predicate holds, or fails when negated. */
  predicate Keeps(pred: Axiom -> bool, isNegated: bool, ax: Axiom)
  {
    if isNegated then !pred(ax) else pred(ax)
  }

  /** The kept axioms, in the order given. */
  function Select(pred: Axiom -> bool, isNegated: bool, xs: seq<Axiom>): (r: seq<Axiom>)
    ensures |r| <= |xs|
    ensures forall ax :: ax in r <==> ax in xs && Keeps(pred, isNegated, ax)
  {
    if xs == [] then []
    else
      var last := xs[|xs| - 1];
      Select(pred, isNegated, xs[..|xs| - 1]) + (if Keeps(pred, isNegated, last) then [last] else [])
  }

  /** Filtering distributes over concatenation, so the kept axioms keep
      their relative order. */
  lemma {:induction false} SelectConcat(pred: Axiom -> bool, isNegated: bool, a: seq<Axiom>, b: seq<Axiom>)
    ensures Select(pred, isNegated, a + b) == Select(pred, isNegated, a) + Select(pred, isNegated, b)
    decreases |b|
  {
    if b == [] {
      assert a + b == a;
    } else {
      var b' := b[..|b| - 1];
      assert (a + b)[..|a + b| - 1] == a + b';
      assert (a + b)[|a + b| - 1] == b[|b| - 1];
      SelectConcat(pred, isNegated, a, b');
    }
  }

  /** Filtering what was already filtered keeps all of it. */
  lemma {:induction false} SelectIdempotent(pred: Axiom -> bool, isNegated: bool, xs: seq<Axiom>)
    ensures Select(pred, isNegated, Select(pred, isNegated, xs)) == Select(pred, isNegated, xs)
    decreases |xs|
  {
    if xs != [] {
      var init := xs[..|xs| - 1];
      var last := xs[|xs| - 1];
      var tail := if Keeps(pred, isNegated, last) then [last] else [];
      SelectIdempotent(pred, isNegated, init);
      SelectConcat(pred, isNegated, Select(pred, isNegated, init), tail);
      if Keeps(pred, isNegated, last) {
        assert Select(pred, isNegated, tail) == Select(pred, isNegated, []) + [last];
      }
    }
  }

  /** A pass and its negation split the axioms between them. */
  lemma {:induction false} SelectPartitions(pred: Axiom -> bool, xs: seq<Axiom>)
    ensures |Select(pred, false, xs)| + |Select(pred, true, xs)| == |xs|
    decreases |xs|
  {
    if xs != [] {
      SelectPartitions(pred, xs[..|xs| - 1]);
    }
  }

  /** The loop of grepAxioms: push each kept axiom onto `filtered`. */
  method FilterAxioms(inAxioms: seq<Axiom>, pred: Axiom -> bool, isNegated: bool) returns (filtered: seq<Axiom>)
    ensures filtered == Select(pred, isNegated, inAxioms)
  {
    filtered := [];
    for k := 0 to |inAxioms|
      invariant filtered == Select(pred, isNegated, inAxioms[..k])
    {
      var ax := inAxioms[k];
      if isNegated {
        if !pred(ax) {
          filtered := filtered + [ax];
        }
      } else {
        if pred(ax) {
          filtered := filtered + [ax];
        }
      }
      assert inAxioms[..k + 1][..k] == inAxioms[..k];
    }
    assert inAxioms[..|inAxioms|] == inAxioms;
  }

  /** What a sedAxioms function returns for one axiom: null (leave it), one
      replacement axiom, or a list of replacements. */
  datatype Rewrite = NoChange | ToAxiom(axiom: Axiom) | ToList(list: seq<Axiom>)

  /** The replacements a rewrite contributes, as intended. */
  function Produced(r: Rewrite): seq<Axiom>
  {
    match r
    case NoChange => []
    case ToAxiom(a) => [a]
    case ToList(l) => l
  }

  /** `newAxioms`: every replacement, in the order of the originals. */
  function NewAxioms(f: Axiom -> Rewrite, xs: seq<Axiom>): (r: seq<Axiom>)
    ensures forall ax :: ax in r <==> exists k :: 0 <= k < |xs| && ax in Produced(f(xs[k]))
  {
    if xs == [] then []
    else
      var init := xs[..|xs| - 1];
      var r := NewAxioms(f, init) + Produced(f(xs[|xs| - 1]));
      assert forall ax :: ax in r <==> exists k :: 0 <= k < |xs| && ax in Produced(f(xs[k])) by {
        forall ax | ax in r ensures exists k :: 0 <= k < |xs| && ax in Produced(f(xs[k])) {
          if ax in NewAxioms(f, init) {
            var k :| 0 <= k < |init| && ax in Produced(f(init[k]));
            assert xs[k] == init[k];
          } else {
            assert ax in Produced(f(xs[|xs| - 1]));
          }
        }
        forall ax | exists k :: 0 <= k < |xs| && ax in Produced(f(xs[k])) ensures ax in r {
          var k :| 0 <= k < |xs| && ax in Produced(f(xs[k]));
          if k < |xs| - 1 {
            assert xs[k] == init[k];
          }
        }
      }
      r
  }

  /** `rmAxioms`: the originals the function did not return null for. */
  function Touched(f: Axiom -> Rewrite, xs: seq<Axiom>): (r: seq<Axiom>)
    ensures |r| <= |xs|
    ensures forall ax :: ax in r <==> ax in xs && !f(ax).NoChange?
  {
    if xs == [] then []
    else
      var last := xs[|xs| - 1];
      Touched(f, xs[..|xs| - 1]) + (if f(last).NoChange? then [] else [last])
  }

  /** The loop of sedAxioms, with a list result contributing its members. */
  method CollectRewrites(inAxioms: seq<Axiom>, f: Axiom -> Rewrite) returns (newAxioms: seq<Axiom>, rmAxioms: seq<Axiom>)
    ensures newAxioms == NewAxioms(f, inAxioms)
    ensures rmAxioms == Touched(f, inAxioms)
  {
    newAxioms, rmAxioms := [], [];
    for k := 0 to |inAxioms|
      invariant newAxioms == NewAxioms(f, inAxioms[..k])
      invariant rmAxioms == Touched(f, inAxioms[..k])
    {
      var ax := inAxioms[k];
      var ax2 := f(ax);
      assert inAxioms[..k + 1][..k] == inAxioms[..k];
      match ax2
      case NoChange =>
      case ToList(l) =>
        newAxioms := newAxioms + l;
        rmAxioms := rmAxioms + [ax];
      case ToAxiom(a) =>
        newAxioms := newAxioms + [a];
        rmAxioms := rmAxioms + [ax];
    }
    assert inAxioms[..|inAxioms|] == inAxioms;
  }

  /** An element of `newAxioms` as the code builds it: an axiom, or the
      `concat` function object that `newAxioms.concat(ax2.concat)` appends. */
  datatype Collected = AxiomItem(axiom: Axiom) | ConcatFunction

  /** `newAxioms` as written: a list result appends its `concat` method,
      not its members, so a function object is collected exactly when some
      result is a list. */
  function NewAxiomsAsWritten(f: Axiom -> Rewrite, xs: seq<Axiom>): (r: seq<Collected>)
    ensures |r| <= |xs|
    ensures ConcatFunction in r <==> exists k :: 0 <= k < |xs| && f(xs[k]).ToList?
  {
    if xs == [] then []
    else
      var init := xs[..|xs| - 1];
      assert forall k :: 0 <= k < |init| ==> xs[k] == init[k];
      var tail := match f(xs[|xs| - 1])
        case NoChange => []
        case ToAxiom(a) => [AxiomItem(a)]
        case ToList(_) => [ConcatFunction];
      NewAxiomsAsWritten(f, init) + tail
  }

  /** The loop of sedAxioms as written: a list result contributes the
      `concat` function object. */
  method CollectRewritesAsWritten(inAxioms: seq<Axiom>, f: Axiom -> Rewrite) returns (newAxioms: seq<Collected>, rmAxioms: seq<Axiom>)
    ensures newAxioms == NewAxiomsAsWritten(f, inAxioms)
    ensures rmAxioms == Touched(f, inAxioms)
  {
    newAxioms, rmAxioms := [], [];
    for k := 0 to |inAxioms|
      invariant newAxioms == NewAxiomsAsWritten(f, inAxioms[..k])
      invariant rmAxioms == Touched(f, inAxioms[..k])
    {
      var ax := inAxioms[k];
      var ax2 := f(ax);
      assert inAxioms[..k + 1][..k] == inAxioms[..k];
      match ax2
      case NoChange =>
      case ToList(_) =>
        newAxioms := newAxioms + [ConcatFunction];
        rmAxioms := rmAxioms + [ax];
      case ToAxiom(a) =>
        newAxioms := newAxioms + [AxiomItem(a)];
        rmAxioms := rmAxioms + [ax];
    }
    assert inAxioms[..|inAxioms|] == inAxioms;
  }

  /** The axioms addAxioms hands to addAxiom, in order, before it reaches an
      element that is not an axiom, where `new AddAxiom` throws; every
      element when there is none. */
  function AddedBeforeThrow(items: seq<Collected>): (r: seq<Axiom>)
    ensures |r| <= |items|
    ensures forall k :: 0 <= k < |r| ==> items[k] == AxiomItem(r[k])
    ensures |r| < |items| ==> items[|r|] == ConcatFunction
    ensures |r| < |items| <==> ConcatFunction in items
  {
    if items == [] then []
    else
      var init := items[..|items| - 1];
      assert forall k :: 0 <= k < |init| ==> items[k] == init[k];
      var r := AddedBeforeThrow(init);
      if |r| < |init| || items[|items| - 1] == ConcatFunction then r
      else r + [items[|items| - 1].axiom]
  }

  /** A prefix of axioms that stops at the end or at a function object is
      what addAxioms submits. */
  lemma AddedBeforeThrowUnique(items: seq<Collected>, added: seq<Axiom>)
    requires |added| <= |items|
    requires forall k :: 0 <= k < |added| ==> items[k] == AxiomItem(added[k])
    requires |added| < |items| ==> items[|added|] == ConcatFunction
    ensures added == AddedBeforeThrow(items)
  {
  }

  /** Without list results the as-written collection submits exactly the
      intended replacements. */
  lemma {:induction false} AsWrittenWithoutLists(f: Axiom -> Rewrite, xs: seq<Axiom>)
    requires forall k :: 0 <= k < |xs| ==> !f(xs[k]).ToList?
    ensures AddedBeforeThrow(NewAxiomsAsWritten(f, xs)) == NewAxioms(f, xs)
    decreases |xs|
  {
    if xs != [] {
      var init := xs[..|xs| - 1];
      AsWrittenWithoutLists(f, init);
      var items := NewAxiomsAsWritten(f, xs);
      var front := NewAxiomsAsWritten(f, init);
      var added := NewAxioms(f, init) + Produced(f(xs[|xs| - 1]));
      assert items[..|front|] == front;
      AddedBeforeThrowUnique(items, added);
    }
  }

  /** As written, an axiom reaches `newAxioms` only as a single-axiom result:
      the members of a list result never do. */
  lemma {:induction false} ListRewritesLostAsWritten(f: Axiom -> Rewrite, xs: seq<Axiom>, b: Axiom)
    requires AxiomItem(b) in NewAxiomsAsWritten(f, xs)
    ensures exists k :: 0 <= k < |xs| && f(xs[k]) == ToAxiom(b)
    decreases |xs|
  {
    var init := xs[..|xs| - 1];
    if AxiomItem(b) in NewAxiomsAsWritten(f, init) {
      ListRewritesLostAsWritten(f, init, b);
      var k :| 0 <= k < |init| && f(init[k]) == ToAxiom(b);
      assert xs[k] == init[k];
    } else {
      assert f(xs[|xs| - 1]) == ToAxiom(b);
    }
  }

  /** A concrete case: a function that turns `a` into a list, even the
      empty one, collects the `concat` function as written, so addAxioms
      throws before it submits anything and `a` is never removed; the
      intended collection replaces `a` by the list's members. */
  lemma ListRewriteExample(f: Axiom -> Rewrite, a: Axiom, l: seq<Axiom>)
    requires f(a) == ToList(l)
    ensures NewAxiomsAsWritten(f, [a]) == [ConcatFunction]
    ensures AddedBeforeThrow(NewAxiomsAsWritten(f, [a])) == []
    ensures NewAxioms(f, [a]) == l && Touched(f, [a]) == [a]
  {
    assert [a][..0] == [];
  }

  /** The set sedAxioms leaves as written: addAxioms(newAxioms), then
      removeAxioms(rmAxioms). */
  lemma AddThenRemoveOutcome(s: set<Axiom>, news: seq<Axiom>, rms: seq<Axiom>)
    ensures Replay(s, AddsOf(news) + RemovesOf(rms)) == (s + Elems(news)) - Elems(rms)
  {
    ReplayConcat(s, AddsOf(news), RemovesOf(rms));
    ReplayAdds(s, news);
    ReplayRemoves(s + Elems(news), rms);
  }

  /** The set left when the removals are submitted first, as replaceAxiom does. */
  lemma RemoveThenAddOutcome(s: set<Axiom>, news: seq<Axiom>, rms: seq<Axiom>)
    ensures Replay(s, RemovesOf(rms) + AddsOf(news)) == (s - Elems(rms)) + Elems(news)
  {
    ReplayConcat(s, RemovesOf(rms), AddsOf(news));
    ReplayRemoves(s, rms);
    ReplayAdds(s - Elems(rms), news);
  }

  /** A rewrite that returns its axiom unchanged (rather than null) deletes
      it when the additions go first, and keeps it when the removals go first. */
  lemma IdentityRewriteErased(a: Axiom)
    ensures Replay({a}, AddsOf([a]) + RemovesOf([a])) == {}
    ensures Replay({a}, RemovesOf([a]) + AddsOf([a])) == {a}
  {
    AddThenRemoveOutcome({a}, [a], [a]);
    RemoveThenAddOutcome({a}, [a], [a]);
    assert Elems([a]) == {a};
  }

  /** A function that inverts subclass axioms, run over an ontology that
      states both a and its inverse b: as written both disappear; with the
      removals first both remain. */
  lemma SwappedPairErased(a: Axiom, b: Axiom)
    requires a != b
    ensures Replay({a, b}, AddsOf([b, a]) + RemovesOf([a, b])) == {}
    ensures Replay({a, b}, RemovesOf([a, b]) + AddsOf([b, a])) == {a, b}
  {
    var s, news, rms := {a, b}, [b, a], [a, b];
    assert Elems(news) == s && Elems(rms) == s;
    AddThenRemoveOutcome(s, news, rms);
    RemoveThenAddOutcome(s, news, rms);
  }

  /** With the removals first, every replacement is present afterwards, every
      axiom the function left alone stays, and a touched original stays only
      when it is also a replacement. */
  lemma {:induction false} RemoveThenAddKeepsReplacements(s: set<Axiom>, xs: seq<Axiom>, f: Axiom -> Rewrite)
    requires Elems(xs) == s
    ensures var after := Replay(s, RemovesOf(Touched(f, xs)) + AddsOf(NewAxioms(f, xs)));
      && (forall ax :: ax in NewAxioms(f, xs) ==> ax in after)
      && (forall ax :: ax in s && f(ax).NoChange? ==> ax in after)
      && (forall ax :: ax in s && !f(ax).NoChange? ==> (ax in after <==> ax in NewAxioms(f, xs)))
  {
    RemoveThenAddOutcome(s, NewAxioms(f, xs), Touched(f, xs));
  }

  /** With the additions first, as written, a replacement equal to a touched
      original ends up absent, and the others end up present. */
  lemma {:induction false} AddThenRemoveDropsReturnedOriginals(s: set<Axiom>, xs: seq<Axiom>, f: Axiom -> Rewrite)
    requires Elems(xs) == s
    ensures var after := Replay(s, AddsOf(NewAxioms(f, xs)) + RemovesOf(Touched(f, xs)));
      && (forall ax :: ax in s && !f(ax).NoChange? ==> ax !in after)
      && (forall ax :: ax in s && f(ax).NoChange? ==> ax in after)
      && (forall ax :: ax in NewAxioms(f, xs) ==> (ax in after <==> !(ax in s && !f(ax).NoChange?)))
  {
    AddThenRemoveOutcome(s, NewAxioms(f, xs), Touched(f, xs));
  }
}
