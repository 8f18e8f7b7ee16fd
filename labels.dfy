/** Labels and lookups by key (lib/owl.js:676-686, 708-762, 1253-1267):
    the label getLabel settles on among an object's rdfs:label values, the
    space-joined text concatLiteral builds, and the first or every object
    whose rendering or label equals a key. */
module Labels {
  import opened Terms
  import opened Collections

  /** The values of the rdfs:label annotation assertions about `iri`. */
  function LabelValues(axioms: set<Axiom>, iri: IRI): (vs: set<Value>)
    ensures forall v :: v in vs <==> AnnotationAssertion(RdfsLabel, iri, v) in axioms
  {
    set ax | ax in axioms && ax.AnnotationAssertion? && ax.property == RdfsLabel && ax.subject == iri :: ax.value
  }

  /** The position of the first value that is not a literal, or the length. */
  function FirstNonLiteral(values: seq<Value>): (k: nat)
    ensures k <= |values|
    ensures forall j :: 0 <= j < k ==> values[j].Literal?
    ensures k < |values| ==> values[k].IriValue?
  {
    if values == [] then 0
    else if values[0].IriValue? then 0
    else 1 + FirstNonLiteral(values[1..])
  }

  /** What getLabel's loop leaves in `label` after the values in this order:
      the last value's literal, null for no values, and an exception if any
      value is an IRI (it has no getLiteral). */
  function LabelOf(values: seq<Value>): (r: Result<Option<string>>)
    ensures r.Err? <==> exists k :: 0 <= k < |values| && values[k].IriValue?
    ensures r.Err? ==> r.error == LabelNotALiteral
    ensures r.Ok? && values == [] ==> r.value == None
    ensures r.Ok? && values != [] ==> r.value == Some(values[|values| - 1].lexical)
  {
    if values == [] then Ok(None)
    else
      match LabelOf(values[..|values| - 1])
      case Err(e) => Err(e)
      case Ok(_) =>
        var v := values[|values| - 1];
        if v.IriValue? then Err(LabelNotALiteral) else Ok(Some(v.lexical))
  }

  /** getLabel's loop over the annotations in enumeration order: it keeps
      the latest literal and warns each time it meets a value while it
      already holds a label. */
  method LastLabel(values: seq<Value>) returns (answer: Result<Option<string>>, warnings: nat)
    ensures answer == LabelOf(values)
    ensures answer.Err? ==> warnings == FirstNonLiteral(values)
    ensures answer.Ok? ==> warnings == if values == [] then 0 else |values| - 1
  {
    var current: Option<string> := None;
    warnings := 0;
    var k := 0;
    while k < |values|
      invariant 0 <= k <= |values|
      invariant forall j :: 0 <= j < k ==> values[j].Literal?
      invariant LabelOf(values[..k]) == Ok(current)
      invariant warnings == if k == 0 then 0 else k - 1
    {
      assert values[..k + 1][..k] == values[..k];
      if current.Some? {
        warnings := warnings + 1;
      }
      var v := values[k];
      if v.IriValue? {
        answer := Err(LabelNotALiteral);
        assert values[..k + 1] + values[k + 1..] == values;
        LabelErrorPersists(values[..k + 1], values[k + 1..]);
        return;
      }
      current := Some(v.lexical);
      k := k + 1;
    }
    assert values[..k] == values;
    answer := Ok(current);
  }

  /** Once a non-literal has been met, later values do not matter. */
  lemma {:induction false} LabelErrorPersists(xs: seq<Value>, ys: seq<Value>)
    requires LabelOf(xs).Err?
    ensures LabelOf(xs + ys) == LabelOf(xs)
  {
    var k :| 0 <= k < |xs| && xs[k].IriValue?;
    assert (xs + ys)[k] == xs[k];
  }

  /** getLabel over any enumeration of the label values: it fails exactly
      when some label is not a literal, answers null exactly when there is
      no label, otherwise answers one of the labels, and the one label
      when there is just one. */
  lemma {:induction false} LabelOfEnumeration(vs: set<Value>, xs: seq<Value>)
    requires Elems(xs) == vs
    ensures LabelOf(xs).Err? <==> exists v :: v in vs && v.IriValue?
    ensures LabelOf(xs) == Ok(None) <==> vs == {}
    ensures LabelOf(xs).Ok? && vs != {} ==> LabelOf(xs).value.Some? && Literal(LabelOf(xs).value.value) in vs
    ensures forall l :: vs == {Literal(l)} ==> LabelOf(xs) == Ok(Some(l))
  {
    if xs != [] {
      assert xs[|xs| - 1] in vs;
    }
    assert LabelOf(xs).Err? ==> exists v :: v in vs && v.IriValue?;
    if exists v :: v in vs && v.IriValue? {
      var v :| v in vs && v.IriValue?;
      var k :| 0 <= k < |xs| && xs[k] == v;
    }
  }

  /** With two different labels the answer depends on the enumeration order. */
  lemma MultiLabelOrderDependent(a: string, b: string)
    requires a != b
    ensures LabelOf([Literal(a), Literal(b)]) == Ok(Some(b))
    ensures LabelOf([Literal(b), Literal(a)]) == Ok(Some(a))
  {
    assert [Literal(a), Literal(b)][..1] == [Literal(a)];
    assert [Literal(b), Literal(a)][..1] == [Literal(b)];
  }

  /** A token of concatLiteral: a string, kept as is, or an object, replaced by its label. */
  datatype Token = Text(text: string) | Term(iri: IRI)

  /** A rendering getLabel can produce for a token over these axioms: a
      null label joins as the empty string. */
  ghost predicate Renders(axioms: set<Axiom>, t: Token, text: string)
  {
    match t
    case Text(s) => text == s
    case Term(iri) =>
      var vs := LabelValues(axioms, iri);
      (vs == {} && text == "") || Literal(text) in vs
  }

  /** Whether getLabel fails on the object. */
  predicate LabelFails(axioms: set<Axiom>, iri: IRI)
  {
    exists v :: v in LabelValues(axioms, iri) && v.IriValue?
  }

  /** `Array.prototype.join(" ")`. */
  function Join(parts: seq<string>): (s: string)
    ensures parts == [] ==> s == ""
    ensures |parts| == 1 ==> s == parts[0]
    ensures forall c :: c in s && c != ' ' ==> exists k :: 0 <= k < |parts| && c in parts[k]
  {
    if parts == [] then ""
    else if |parts| == 1 then parts[0]
    else parts[0] + " " + Join(parts[1..])
  }

  /** `String.prototype.split(" ")`: the pieces between single spaces. The
      library never splits a label; this exists only to show that `Join`
      loses nothing when the parts hold no space (`SplitJoin`). */
  function Split(s: string): (parts: seq<string>)
    ensures |parts| >= 1
  {
    if s == [] then [""]
    else if s[0] == ' ' then [""] + Split(s[1..])
    else
      var rest := Split(s[1..]);
      [[s[0]] + rest[0]] + rest[1..]
  }

  /** A space-free word followed by `tail` splits as the word glued to the
      first piece of the tail. */
  lemma {:induction false} SplitWord(p: string, tail: string)
    requires ' ' !in p
    ensures Split(p + tail) == [p + Split(tail)[0]] + Split(tail)[1..]
    decreases |p|
  {
    if p != [] {
      assert (p + tail)[0] == p[0];
      assert (p + tail)[1..] == p[1..] + tail;
      SplitWord(p[1..], tail);
      assert [p[0]] + (p[1..] + Split(tail)[0]) == p + Split(tail)[0];
    } else {
      assert p + tail == tail;
      assert p + Split(tail)[0] == Split(tail)[0];
      assert [Split(tail)[0]] + Split(tail)[1..] == Split(tail);
    }
  }

  /** Joining words without spaces and splitting again gives the words back,
      so the rendering of each token can be recovered from the label. */
  lemma {:induction false} SplitJoin(parts: seq<string>)
    requires parts != []
    requires forall k :: 0 <= k < |parts| ==> ' ' !in parts[k]
    ensures Split(Join(parts)) == parts
    decreases |parts|
  {
    if |parts| == 1 {
      SplitWord(parts[0], "");
      assert parts[0] + "" == parts[0];
    } else {
      var rest := Join(parts[1..]);
      SplitJoin(parts[1..]);
      assert parts[0] + " " + rest == parts[0] + (" " + rest);
      SplitWord(parts[0], " " + rest);
      assert (" " + rest)[1..] == rest;
      assert Split(" " + rest) == [""] + parts[1..];
      assert parts[0] + "" == parts[0];
      assert [parts[0]] + parts[1..] == parts;
    }
  }

  /** keyMatches for a string key: the object's rendering is the key, or
      its label is. A rendering equal to the key matches whatever the label,
      and an object without a label matches only by its rendering. */
  predicate KeyMatches(key: string, rendering: string, lbl: Option<string>)
    ensures rendering == key ==> KeyMatches(key, rendering, lbl)
    ensures lbl.None? ==> (KeyMatches(key, rendering, lbl) <==> rendering == key)
    ensures rendering != key ==> (KeyMatches(key, rendering, lbl) <==> lbl == Some(key))
  {
    rendering == key || lbl == Some(key)
  }

  predicate MatchesAt(key: string, obj: Entity, render: Entity -> string, labelOf: Entity -> Option<string>)
  {
    KeyMatches(key, render(obj), labelOf(obj))
  }

  /** mfind's answer: the matching objects, in order (see `MatchAllConcat`). */
  function MatchAll(key: string, objs: seq<Entity>, render: Entity -> string, labelOf: Entity -> Option<string>): (r: seq<Entity>)
    ensures |r| <= |objs|
    ensures forall o :: o in r <==> o in objs && MatchesAt(key, o, render, labelOf)
  {
    if objs == [] then []
    else
      var last := objs[|objs| - 1];
      MatchAll(key, objs[..|objs| - 1], render, labelOf) + (if MatchesAt(key, last, render, labelOf) then [last] else [])
  }

  /** Splitting the objects splits mfind's answer the same way, so the
      matches keep the order of the objects. */
  lemma {:induction false} MatchAllConcat(key: string, a: seq<Entity>, b: seq<Entity>, render: Entity -> string, labelOf: Entity -> Option<string>)
    ensures MatchAll(key, a + b, render, labelOf) == MatchAll(key, a, render, labelOf) + MatchAll(key, b, render, labelOf)
    decreases |b|
  {
    if b == [] {
      assert a + b == a;
    } else {
      var init := b[..|b| - 1];
      assert (a + b)[..|a + b| - 1] == a + init;
      assert (a + b)[|a + b| - 1] == b[|b| - 1];
      MatchAllConcat(key, a, init, render, labelOf);
    }
  }

  /** find's answer: the first matching object, if any. */
  function FirstMatch(key: string, objs: seq<Entity>, render: Entity -> string, labelOf: Entity -> Option<string>): (r: Option<Entity>)
    ensures r.Some? ==> MatchesAt(key, r.value, render, labelOf)
    ensures r.Some? ==> exists k :: (0 <= k < |objs| && objs[k] == r.value &&
      forall j :: 0 <= j < k ==> !MatchesAt(key, objs[j], render, labelOf))
    ensures r.None? ==> forall k :: 0 <= k < |objs| ==> !MatchesAt(key, objs[k], render, labelOf)
  {
    if objs == [] then None
    else
      var init := objs[..|objs| - 1];
      assert forall k :: 0 <= k < |init| ==> objs[k] == init[k];
      match FirstMatch(key, init, render, labelOf)
      case Some(o) => Some(o)
      case None =>
        var last := objs[|objs| - 1];
        if MatchesAt(key, last, render, labelOf) then Some(last) else None
  }

  /** A match already found is not displaced by later objects. */
  lemma {:induction false} FirstMatchExtends(key: string, xs: seq<Entity>, ys: seq<Entity>, render: Entity -> string, labelOf: Entity -> Option<string>)
    requires FirstMatch(key, xs, render, labelOf).Some?
    ensures FirstMatch(key, xs + ys, render, labelOf) == FirstMatch(key, xs, render, labelOf)
    decreases |ys|
  {
    if ys == [] {
      assert xs + ys == xs;
    } else {
      var init := ys[..|ys| - 1];
      FirstMatchExtends(key, xs, init, render, labelOf);
      assert (xs + ys)[..|xs + ys| - 1] == xs + init;
    }
  }

  /** find answers the head of what mfind answers, and nothing exactly when
      mfind answers nothing. */
  lemma {:induction false} FindIsFirstOfMFind(key: string, objs: seq<Entity>, render: Entity -> string, labelOf: Entity -> Option<string>)
    ensures var all := MatchAll(key, objs, render, labelOf);
      FirstMatch(key, objs, render, labelOf) == if all == [] then None else Some(all[0])
    decreases |objs|
  {
    if objs != [] {
      FindIsFirstOfMFind(key, objs[..|objs| - 1], render, labelOf);
    }
  }

  /** find's loop: return the first object that matches. */
  method Find(key: string, objs: seq<Entity>, render: Entity -> string, labelOf: Entity -> Option<string>) returns (found: Option<Entity>)
    ensures found == FirstMatch(key, objs, render, labelOf)
  {
    var k := 0;
    while k < |objs|
      invariant 0 <= k <= |objs|
      invariant FirstMatch(key, objs[..k], render, labelOf) == None
    {
      var obj := objs[k];
      assert objs[..k + 1][..k] == objs[..k];
      if KeyMatches(key, render(obj), labelOf(obj)) {
        found := Some(obj);
        assert objs[..k + 1] + objs[k + 1..] == objs;
        FirstMatchExtends(key, objs[..k + 1], objs[k + 1..], render, labelOf);
        return;
      }
      k := k + 1;
    }
    assert objs[..k] == objs;
    found := None;
  }

  /** mfind's loop: push every object that matches. */
  method MFind(key: string, objs: seq<Entity>, render: Entity -> string, labelOf: Entity -> Option<string>) returns (results: seq<Entity>)
    ensures results == MatchAll(key, objs, render, labelOf)
  {
    results := [];
    var k := 0;
    while k < |objs|
      invariant 0 <= k <= |objs|
      invariant results == MatchAll(key, objs[..k], render, labelOf)
    {
      var obj := objs[k];
      assert objs[..k + 1][..k] == objs[..k];
      if KeyMatches(key, render(obj), labelOf(obj)) {
        results := results + [obj];
      }
      k := k + 1;
    }
    assert objs[..k] == objs;
  }
}
