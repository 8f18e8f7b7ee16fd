/** The genus-differentia pattern of generateXP (lib/owl.js:1289-1320): the
    slot map of the generated class, the tokens its default label and
    definition are built from, and its equivalent class expression
    `genus and (relation some diff)`. */
module GenusDifferentia {
  import opened Terms
  import opened Labels

  /** The slot map handed to OWLFrame. */
  datatype Frame = Frame(id: IRI, labelText: string, definition: string, equivalentTo: ClassExpr)

  /** The `defaultMap` argument: a label and a definition that replace the
      generated ones when present. */
  datatype Defaults = Defaults(labelText: Option<string>, definition: Option<string>)

  /** `concatLiteral(genus, 'of', diff)`; the text it joins to is stated by
      `LabelText`. */
  function LabelTokens(genus: IRI, diff: IRI): (toks: seq<Token>)
    ensures |toks| == 3 && toks[1] == Text("of")
    ensures toks[0] == Term(genus) && toks[2] == Term(diff)
  {
    [Term(genus), Text("of"), Term(diff)]
  }

  /** `concatLiteral('a', genus, 'that is', relation, 'a', diff)`; the text
      it joins to is stated by `DefinitionText`. */
  function DefinitionTokens(genus: IRI, relation: IRI, diff: IRI): (toks: seq<Token>)
    ensures |toks| == 6 && toks[0] == Text("a") && toks[2] == Text("that is") && toks[4] == Text("a")
    ensures toks[1] == Term(genus) && toks[3] == Term(relation) && toks[5] == Term(diff)
  {
    [Text("a"), Term(genus), Text("that is"), Term(relation), Text("a"), Term(diff)]
  }

  /** `intersectionOf(genus, someValuesFrom(relation, diff))`: an
      intersection of exactly two operands, the genus and the existential
      restriction on the differentia. */
  function Differentia(genus: IRI, relation: IRI, diff: IRI): (e: ClassExpr)
    ensures e.IntersectionOf?
    ensures e.operands == {Named(genus), SomeValuesFrom(relation, Named(diff))}
    ensures |e.operands| == 2 && e != Named(genus)
  {
    var e := IntersectionOfArgs([Named(genus), SomeValuesFrom(relation, Named(diff))]);
    assert e.operands == {Named(genus), SomeValuesFrom(relation, Named(diff))};
    e
  }

  /** The default label reads "<genus label> of <diff label>". */
  lemma LabelText(g: string, d: string)
    ensures Join([g, "of", d]) == g + " of " + d
  {
    assert [g, "of", d][1..] == ["of", d];
    assert ["of", d][1..] == [d];
  }

  /** The default definition reads
      "a <genus label> that is <relation label> a <diff label>". */
  lemma DefinitionText(g: string, r: string, d: string)
    ensures Join(["a", g, "that is", r, "a", d]) == "a " + g + " that is " + r + " a " + d
  {
    var parts := ["a", g, "that is", r, "a", d];
    assert parts[4..][1..] == [d];
    var j4 := Join(parts[4..]);
    assert j4 == "a " + d;
    assert parts[3..][1..] == parts[4..];
    var j3 := Join(parts[3..]);
    assert j3 == r + " a " + d;
    assert parts[2..][1..] == parts[3..];
    var j2 := Join(parts[2..]);
    assert j2 == "that is " + r + " a " + d;
    assert parts[1..][1..] == parts[2..];
    var j1 := Join(parts[1..]);
    assert j1 == g + " that is " + r + " a " + d;
  }
}
