/** The OWL object of lib/owl.js (lib/owl.js:62-72): an ontology, seen as a
    finite set of axioms, together with the append-only list of the changes
    applied through it, the frames generateXP produced, and the two
    configuration keys genIRI reads and writes. Every mutation goes through
    applyChange, so the axioms are always the loaded axioms with the logged
    changes replayed over them in order. */
module Store {
  import opened Terms
  import opened Collections
  import opened Changes
  import opened Transform
  import opened IdAlloc
  import opened Labels
  import opened GenusDifferentia

  /** The argument of `add`: an axiom, a list of axioms, or anything else
      (which `add` reports as a failure and ignores). */
  datatype Addable = OneAxiom(axiom: Axiom) | AxiomList(list: seq<Axiom>) | Unsupported

  class Owl {
    /** The axioms of `this.ontology`. */
    var axioms: set<Axiom>
    /** `this.changes`. */
    var changes: seq<Change>
    /** `this.generatedFrames`. */
    var generatedFrames: seq<Frame>
    /** `this.config.idspace`. */
    var idspace: string
    /** `this.config.lastId`; None while unset. */
    var lastId: Option<nat>
    /** The axioms the ontology had when it was wrapped. */
    ghost const initial: set<Axiom>

    /** The axioms are the loaded ones with the change log replayed. */
    ghost predicate Valid()
      reads this
    {
      axioms == Replay(initial, changes)
    }

    /** `new OWL(ont)`. The source starts from an empty `config`
        (lib/owl.js:70) that callers fill in afterwards; here the two keys
        genIRI reads are given up front, and `lastId` None is the unset one. */
    constructor (loaded: set<Axiom>, idspace: string, lastId: Option<nat>)
      ensures Valid()
      ensures axioms == loaded && changes == [] && generatedFrames == []
      ensures this.idspace == idspace && this.lastId == lastId
    {
      axioms := loaded;
      changes := [];
      generatedFrames := [];
      this.idspace := idspace;
      this.lastId := lastId;
      initial := loaded;
    }

    /** applyChange: the manager applies the change and it is pushed onto the log. */
    method ApplyChange(change: Change) returns (applied: Change)
      requires Valid()
      modifies this
      ensures Valid()
      ensures axioms == Apply(old(axioms), change)
      ensures changes == old(changes) + [change]
      ensures generatedFrames == old(generatedFrames) && idspace == old(idspace) && lastId == old(lastId)
      ensures applied == change
    {
      ReplaySnoc(initial, changes, change);
      axioms := Apply(axioms, change);
      changes := changes + [change];
      applied := change;
    }

    /** addAxiom: one AddAxiom record; the axiom is present afterwards and
        no other axiom changes membership. */
    method AddAxiom(ax: Axiom) returns (change: Change)
      requires Valid()
      modifies this
      ensures Valid()
      ensures axioms == old(axioms) + {ax}
      ensures changes == old(changes) + [Change.AddAxiom(ax)]
      ensures generatedFrames == old(generatedFrames) && idspace == old(idspace) && lastId == old(lastId)
      ensures change == Change.AddAxiom(ax)
    {
      change := ApplyChange(Change.AddAxiom(ax));
    }

    /** removeAxiom: one RemoveAxiom record; the axiom is absent afterwards
        and no other axiom changes membership. */
    method RemoveAxiom(ax: Axiom)
      requires Valid()
      modifies this
      ensures Valid()
      ensures axioms == old(axioms) - {ax}
      ensures changes == old(changes) + [Change.RemoveAxiom(ax)]
      ensures generatedFrames == old(generatedFrames) && idspace == old(idspace) && lastId == old(lastId)
    {
      var _ := ApplyChange(Change.RemoveAxiom(ax));
    }

    /** addAxioms: one AddAxiom record per element, in list order; returns the list. */
    method AddAxioms(axs: seq<Axiom>) returns (added: seq<Axiom>)
      requires Valid()
      modifies this
      ensures Valid()
      ensures axioms == old(axioms) + Elems(axs)
      ensures changes == old(changes) + AddsOf(axs)
      ensures generatedFrames == old(generatedFrames) && idspace == old(idspace) && lastId == old(lastId)
      ensures added == axs
    {
      for k := 0 to |axs|
        invariant Valid()
        invariant axioms == old(axioms) + Elems(axs[..k])
        invariant changes == old(changes) + AddsOf(axs[..k])
        invariant generatedFrames == old(generatedFrames) && idspace == old(idspace) && lastId == old(lastId)
      {
        var _ := AddAxiom(axs[k]);
        assert axs[..k + 1] == axs[..k] + [axs[k]];
        assert AddsOf(axs[..k + 1]) == AddsOf(axs[..k]) + [Change.AddAxiom(axs[k])];
        assert Elems(axs[..k + 1]) == Elems(axs[..k]) + {axs[k]};
      }
      assert axs[..|axs|] == axs;
      added := axs;
    }

    /** removeAxioms: one RemoveAxiom record per element, in list order. */
    method RemoveAxioms(axs: seq<Axiom>)
      requires Valid()
      modifies this
      ensures Valid()
      ensures axioms == old(axioms) - Elems(axs)
      ensures changes == old(changes) + RemovesOf(axs)
      ensures generatedFrames == old(generatedFrames) && idspace == old(idspace) && lastId == old(lastId)
    {
      for k := 0 to |axs|
        invariant Valid()
        invariant axioms == old(axioms) - Elems(axs[..k])
        invariant changes == old(changes) + RemovesOf(axs[..k])
        invariant generatedFrames == old(generatedFrames) && idspace == old(idspace) && lastId == old(lastId)
      {
        RemoveAxiom(axs[k]);
        assert axs[..k + 1] == axs[..k] + [axs[k]];
        assert RemovesOf(axs[..k + 1]) == RemovesOf(axs[..k]) + [Change.RemoveAxiom(axs[k])];
        assert Elems(axs[..k + 1]) == Elems(axs[..k]) + {axs[k]};
      }
      assert axs[..|axs|] == axs;
    }

    /** replaceAxiom(old, news): remove the old axiom, then add the new ones;
        the old axiom survives only if it is among the new ones. */
    method ReplaceAxiom(oldAxiom: Axiom, newAxioms: seq<Axiom>)
      requires Valid()
      modifies this
      ensures Valid()
      ensures axioms == (old(axioms) - {oldAxiom}) + Elems(newAxioms)
      ensures changes == old(changes) + [Change.RemoveAxiom(oldAxiom)] + AddsOf(newAxioms)
      ensures forall ax :: ax in newAxioms ==> ax in axioms
      ensures oldAxiom in axioms <==> oldAxiom in newAxioms
      ensures generatedFrames == old(generatedFrames) && idspace == old(idspace) && lastId == old(lastId)
    {
      RemoveAxiom(oldAxiom);
      var _ := AddAxioms(newAxioms);
    }

    /** add: an axiom goes to addAxiom, a list to addAxioms; anything else
        is reported and leaves the store alone. */
    method Add(x: Addable) returns (ok: bool)
      requires Valid()
      modifies this
      ensures Valid()
      ensures ok <==> !x.Unsupported?
      ensures x.OneAxiom? ==> axioms == old(axioms) + {x.axiom} && changes == old(changes) + [Change.AddAxiom(x.axiom)]
      ensures x.AxiomList? ==> axioms == old(axioms) + Elems(x.list) && changes == old(changes) + AddsOf(x.list)
      ensures x.Unsupported? ==> axioms == old(axioms) && changes == old(changes)
      ensures generatedFrames == old(generatedFrames) && idspace == old(idspace) && lastId == old(lastId)
    {
      match x
      case OneAxiom(ax) =>
        var _ := AddAxiom(ax);
        ok := true;
      case AxiomList(axs) =>
        var _ := AddAxioms(axs);
        ok := true;
      case Unsupported =>
        ok := false;
    }

    /** grepAxioms: the axioms, in the order the ontology lists them, that the
        predicate keeps. With isReplace, all axioms are removed and the kept
        ones added back, so exactly the kept ones remain. */
    method GrepAxioms(pred: Axiom -> bool, isNegated: bool, isReplace: bool) returns (filtered: seq<Axiom>, ghost order: seq<Axiom>)
      requires Valid()
      modifies this
      ensures Valid()
      ensures Elems(order) == old(axioms) && Distinct(order)
      ensures filtered == Select(pred, isNegated, order)
      ensures forall ax :: ax in filtered <==> ax in old(axioms) && Keeps(pred, isNegated, ax)
      ensures !isReplace ==> axioms == old(axioms) && changes == old(changes)
      ensures isReplace ==> axioms == Elems(filtered)
      ensures isReplace ==> changes == old(changes) + RemovesOf(order) + AddsOf(filtered)
      ensures |changes| == |old(changes)| + if isReplace then |old(axioms)| + |filtered| else 0
      ensures generatedFrames == old(generatedFrames) && idspace == old(idspace) && lastId == old(lastId)
    {
      var inAxioms := Enumerate(axioms);
      order := inAxioms;
      filtered := FilterAxioms(inAxioms, pred, isNegated);
      if isReplace {
        RemoveAxioms(inAxioms);
        var _ := AddAxioms(filtered);
        assert forall ax :: ax in filtered ==> ax in Elems(inAxioms);
      }
    }

    /** addAxioms(newAxioms) over what sedAxioms collected: one addAxiom per
        element, in order, until an element that is not an axiom makes
        `new AddAxiom` throw. */
    method AddCollected(items: seq<Collected>) returns (added: seq<Axiom>)
      requires Valid()
      modifies this
      ensures Valid()
      ensures added == AddedBeforeThrow(items)
      ensures axioms == old(axioms) + Elems(added)
      ensures changes == old(changes) + AddsOf(added)
      ensures generatedFrames == old(generatedFrames) && idspace == old(idspace) && lastId == old(lastId)
    {
      added := [];
      var k := 0;
      while k < |items| && items[k].AxiomItem?
        invariant 0 <= k <= |items| && |added| == k
        invariant forall j :: 0 <= j < k ==> items[j] == AxiomItem(added[j])
        invariant Valid()
        invariant axioms == old(axioms) + Elems(added)
        invariant changes == old(changes) + AddsOf(added)
        invariant generatedFrames == old(generatedFrames) && idspace == old(idspace) && lastId == old(lastId)
      {
        var ax := items[k].axiom;
        var _ := AddAxiom(ax);
        assert AddsOf(added + [ax]) == AddsOf(added) + [Change.AddAxiom(ax)];
        assert Elems(added + [ax]) == Elems(added) + {ax};
        added := added + [ax];
        k := k + 1;
      }
      AddedBeforeThrowUnique(items, added);
    }

    /** sedAxioms as written. A list result collects the `concat` function
        object, on which addAxioms throws before any removal is submitted.
        Otherwise the replacements are added before the touched originals
        are removed, so every touched original ends up absent, even one that
        was also returned as a replacement. */
    method SedAxioms(f: Axiom -> Rewrite) returns (result: Result<seq<Collected>>, ghost order: seq<Axiom>)
      requires Valid()
      modifies this
      ensures Valid()
      ensures Elems(order) == old(axioms) && Distinct(order)
      ensures result.Err? <==> exists k :: 0 <= k < |order| && f(order[k]).ToList?
      ensures result.Err? ==> result.error == NotAnAxiom
      ensures result.Err? ==> changes == old(changes) + AddsOf(AddedBeforeThrow(NewAxiomsAsWritten(f, order)))
      ensures result.Err? ==> axioms == old(axioms) + Elems(AddedBeforeThrow(NewAxiomsAsWritten(f, order)))
      ensures result.Ok? ==> result.value == NewAxiomsAsWritten(f, order)
      ensures result.Ok? ==> changes == old(changes) + AddsOf(NewAxioms(f, order)) + RemovesOf(Touched(f, order))
      ensures result.Ok? ==> axioms == (old(axioms) + Elems(NewAxioms(f, order))) - Elems(Touched(f, order))
      ensures forall ax :: ax in old(axioms) && f(ax).NoChange? ==> ax in axioms
      ensures result.Ok? ==> forall ax :: ax in old(axioms) && !f(ax).NoChange? ==> ax !in axioms
      ensures generatedFrames == old(generatedFrames) && idspace == old(idspace) && lastId == old(lastId)
    {
      var inAxioms := Enumerate(axioms);
      order := inAxioms;
      var items, rmAxioms := CollectRewritesAsWritten(inAxioms, f);
      var added := AddCollected(items);
      if |added| < |items| {
        result := Err(NotAnAxiom);
        return;
      }
      AsWrittenWithoutLists(f, inAxioms);
      RemoveAxioms(rmAxioms);
      result := Ok(items);
    }

    /** sedAxioms with the removals submitted first: an axiom the function
        leaves alone stays, a touched one is replaced, and every replacement
        is present afterwards. */
    method SedAxiomsCorrected(f: Axiom -> Rewrite) returns (newAxioms: seq<Axiom>, ghost order: seq<Axiom>)
      requires Valid()
      modifies this
      ensures Valid()
      ensures Elems(order) == old(axioms) && Distinct(order)
      ensures newAxioms == NewAxioms(f, order)
      ensures changes == old(changes) + RemovesOf(Touched(f, order)) + AddsOf(newAxioms)
      ensures axioms == (old(axioms) - Elems(Touched(f, order))) + Elems(newAxioms)
      ensures forall ax :: ax in newAxioms ==> ax in axioms
      ensures forall ax :: ax in old(axioms) && f(ax).NoChange? ==> ax in axioms
      ensures forall ax :: ax in old(axioms) && !f(ax).NoChange? ==> (ax in axioms <==> ax in newAxioms)
      ensures generatedFrames == old(generatedFrames) && idspace == old(idspace) && lastId == old(lastId)
    {
      var inAxioms := Enumerate(axioms);
      order := inAxioms;
      var rmAxioms;
      newAxioms, rmAxioms := CollectRewrites(inAxioms, f);
      RemoveAxioms(rmAxioms);
      var _ := AddAxioms(newAxioms);
    }

    /** The three checks genIRI makes on counter n: annotation assertions
        about the candidate IRI, axioms about the class of that IRI, and
        (only when both are clear) a scan of every annotation assertion for
        a literal equal to the IRI or the compact identifier. */
    method CandidateUsed(n: nat) returns (used: bool)
      ensures used <==> IsUsed(axioms, idspace, n)
    {
      var iri := CandidateIri(idspace, n);
      var id := CompactId(idspace, n);
      used := AnnotatedAt(axioms, iri) || DescribesClass(axioms, iri);
      if !used {
        var aaas := Enumerate(set ax | ax in axioms && ax.AnnotationAssertion?);
        used := ScanLiterals(aaas, iri, id);
        assert used <==> MentionedAsLiteral(axioms, iri, id) by {
          if used {
            var k :| 0 <= k < |aaas| && MentionsLiterally(aaas[k], iri, id);
            assert aaas[k] in Elems(aaas);
          }
          forall ax | ax in axioms && MentionsLiterally(ax, iri, id)
            ensures exists k :: 0 <= k < |aaas| && MentionsLiterally(aaas[k], iri, id)
          {
            assert ax in Elems(aaas);
          }
        }
      }
    }

    /** genIRI: advance the counter (an unset one counts as 0) until the
        candidate passes all three checks, and return that candidate. The
        counter ends on the first free slot after its old value, and it is
        the counter the returned IRI carries. */
    method GenIRI() returns (iri: IRI)
      requires Valid()
      modifies this
      ensures Valid()
      ensures lastId.Some?
      ensures IsFirstFree(axioms, idspace, if old(lastId).Some? then old(lastId).value else 0, lastId.value)
      ensures iri == CandidateIri(idspace, lastId.value)
      ensures CounterOf(idspace, iri) == Some(lastId.value)
      ensures axioms == old(axioms) && changes == old(changes)
      ensures generatedFrames == old(generatedFrames) && idspace == old(idspace)
    {
      var start := if lastId.Some? then lastId.value else 0;
      ghost var axs, space := axioms, idspace;
      ghost var bound := UsedBounded(axs, space);
      var n := start + 1;
      lastId := Some(n);
      var used := CandidateUsed(n);
      while used
        invariant start < n && lastId == Some(n)
        invariant used <==> IsUsed(axs, space, n)
        invariant UsedBetween(axs, space, start, n)
        invariant axioms == axs && idspace == space && changes == old(changes) && generatedFrames == old(generatedFrames)
        decreases bound - n
      {
        UsedBetweenStep(axs, space, start, n);
        n := n + 1;
        lastId := Some(n);
        used := CandidateUsed(n);
      }
      FirstFreeFound(axs, space, start, n);
      iri := CandidateIri(idspace, n);
      CounterRoundTrip(idspace, n);
    }

    /** getLabel: the rdfs:label values of the object, enumerated, and the
        loop that keeps the last literal. It fails exactly when some label
        value is not a literal, and otherwise renders as a label it has. */
    method GetLabel(iri: IRI) returns (answer: Result<Option<string>>, ghost order: seq<Value>)
      ensures Elems(order) == LabelValues(axioms, iri)
      ensures answer == LabelOf(order)
      ensures answer.Err? <==> LabelFails(axioms, iri)
      ensures answer.Ok? ==> Renders(axioms, Term(iri), if answer.value.Some? then answer.value.value else "")
    {
      var values := Enumerate(LabelValues(axioms, iri));
      order := values;
      var warnings;
      answer, warnings := LastLabel(values);
      LabelOfEnumeration(LabelValues(axioms, iri), values);
    }

    /** concatLiteral: each string token as it is, each object replaced by
        its label (a missing label joins as the empty string), joined with
        single spaces; it fails when a label lookup fails. */
    method ConcatLiteral(toks: seq<Token>) returns (r: Result<string>, ghost texts: seq<string>)
      ensures r.Err? <==> exists k :: 0 <= k < |toks| && toks[k].Term? && LabelFails(axioms, toks[k].iri)
      ensures r.Ok? ==> |texts| == |toks| && r.value == Join(texts)
      ensures r.Ok? ==> forall k :: 0 <= k < |toks| ==> Renders(axioms, toks[k], texts[k])
    {
      var parts: seq<string> := [];
      texts := [];
      for k := 0 to |toks|
        invariant |parts| == k
        invariant forall j :: 0 <= j < k ==> Renders(axioms, toks[j], parts[j])
        invariant forall j :: 0 <= j < k ==> !(toks[j].Term? && LabelFails(axioms, toks[j].iri))
      {
        match toks[k]
        case Text(s) =>
          parts := parts + [s];
        case Term(iri) =>
          var answer, _ := GetLabel(iri);
          match answer
          case Err(e) =>
            r := Err(e);
            return;
          case Ok(lbl) =>
            parts := parts + [if lbl.Some? then lbl.value else ""];
      }
      r := Ok(Join(parts));
      texts := parts;
    }

    /** `concatLiteral(genus, 'of', diff)`: "<genus label> of <diff label>". */
    method DefaultLabel(genus: IRI, diff: IRI) returns (r: Result<string>, ghost parts: seq<string>)
      ensures r.Err? <==> LabelFails(axioms, genus) || LabelFails(axioms, diff)
      ensures r.Ok? ==> |parts| == 3 && Renders(axioms, Term(genus), parts[0]) && Renders(axioms, Term(diff), parts[2])
      ensures r.Ok? ==> r.value == parts[0] + " of " + parts[2]
    {
      var toks := LabelTokens(genus, diff);
      r, parts := ConcatLiteral(toks);
      if r.Ok? {
        assert parts == [parts[0], "of", parts[2]];
        LabelText(parts[0], parts[2]);
      }
    }

    /** `concatLiteral('a', genus, 'that is', relation, 'a', diff)`:
        "a <genus label> that is <relation label> a <diff label>". */
    method DefaultDefinition(genus: IRI, relation: IRI, diff: IRI) returns (r: Result<string>, ghost parts: seq<string>)
      ensures r.Err? <==> LabelFails(axioms, genus) || LabelFails(axioms, relation) || LabelFails(axioms, diff)
      ensures r.Ok? ==> |parts| == 6
      ensures r.Ok? ==> Renders(axioms, Term(genus), parts[1]) && Renders(axioms, Term(relation), parts[3]) && Renders(axioms, Term(diff), parts[5])
      ensures r.Ok? ==> r.value == "a " + parts[1] + " that is " + parts[3] + " a " + parts[5]
    {
      var toks := DefinitionTokens(genus, relation, diff);
      r, parts := ConcatLiteral(toks);
      if r.Ok? {
        assert parts == ["a", parts[1], "that is", parts[3], "a", parts[5]];
        DefinitionText(parts[1], parts[3], parts[5]);
      }
    }

    /** generateXP: mint an identifier, build the label "genus of diff" and
        the definition "a genus that is relation a diff" unless the defaults
        supply them, make the class equivalent to `genus and (relation some
        diff)`, and push the frame. The axioms are not touched. */
    method GenerateXP(genus: IRI, relation: IRI, diff: IRI, defaults: Defaults)
      returns (r: Result<Frame>, ghost labelParts: seq<string>, ghost definitionParts: seq<string>)
      requires Valid()
      modifies this
      ensures Valid()
      ensures lastId.Some? && IsFirstFree(axioms, idspace, if old(lastId).Some? then old(lastId).value else 0, lastId.value)
      ensures axioms == old(axioms) && changes == old(changes) && idspace == old(idspace)
      ensures r.Err? <==> LabelFails(axioms, genus) || LabelFails(axioms, diff) || (defaults.definition.None? && LabelFails(axioms, relation))
      ensures r.Err? ==> generatedFrames == old(generatedFrames)
      ensures r.Ok? ==> generatedFrames == old(generatedFrames) + [r.value]
      ensures r.Ok? ==> r.value.id == CandidateIri(idspace, lastId.value)
      ensures r.Ok? ==> r.value.equivalentTo == Differentia(genus, relation, diff)
      ensures r.Ok? ==> |labelParts| == 3 && Renders(axioms, Term(genus), labelParts[0]) && Renders(axioms, Term(diff), labelParts[2])
      ensures r.Ok? ==> r.value.labelText == if defaults.labelText.Some? then defaults.labelText.value else labelParts[0] + " of " + labelParts[2]
      ensures r.Ok? && defaults.definition.None? ==> |definitionParts| == 6
      ensures r.Ok? && defaults.definition.None? ==>
        Renders(axioms, Term(genus), definitionParts[1]) && Renders(axioms, Term(relation), definitionParts[3]) && Renders(axioms, Term(diff), definitionParts[5])
      ensures r.Ok? && defaults.definition.None? ==>
        r.value.definition == "a " + definitionParts[1] + " that is " + definitionParts[3] + " a " + definitionParts[5]
      ensures r.Ok? && defaults.definition.Some? ==> r.value.definition == defaults.definition.value
    {
      definitionParts := [];
      var iri := GenIRI();
      var generated;
      generated, labelParts := DefaultLabel(genus, diff);
      if generated.Err? {
        r := Err(generated.error);
        return;
      }
      var labelText := if defaults.labelText.Some? then defaults.labelText.value else generated.value;
      var ex := Differentia(genus, relation, diff);
      var definition: string;
      if defaults.definition.None? {
        var d;
        d, definitionParts := DefaultDefinition(genus, relation, diff);
        if d.Err? {
          r := Err(d.error);
          return;
        }
        definition := d.value;
      } else {
        definition := defaults.definition.value;
      }
      var frame := Frame(iri, labelText, definition, ex);
      generatedFrames := generatedFrames + [frame];
      r := Ok(frame);
    }
  }
}
