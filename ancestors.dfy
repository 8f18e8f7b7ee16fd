/** Ancestors over a relation (lib/owl.js:279-318): the temporary class
    that materialization names for each class C, standing for
    `prop some C`; the lookup from temporary class back to C; and the
    unfolding of the reasoner's superclasses through that lookup. The
    reasoner itself is outside the model: its answer is an input. */
module Ancestors {
  import opened Terms

  /** The text JS produces for a boolean in string concatenation. */
  function BoolText(b: bool): string
  {
    if b then "true" else "false"
  }

  /** `prop.getIRI().toString() + isReflexive`. */
  function Suffix(prop: IRI, isReflexive: bool): string
  {
    prop + BoolText(isReflexive)
  }

  /** `c.getIRI().toString() + "-" + suffix`. */
  function TempIri(c: IRI, prop: IRI, isReflexive: bool): (t: IRI)
    ensures |t| == |c| + 1 + |prop| + |BoolText(isReflexive)|
    ensures t[..|c|] == c && t[|c|] == '-'
  {
    c + "-" + Suffix(prop, isReflexive)
  }

  lemma SuffixCancels(a: string, b: string, s: string)
    requires a + s == b + s
    ensures a == b
  {
    assert |a| == |b|;
    assert a == (a + s)[..|a|];
    assert b == (b + s)[..|b|];
  }

  /** Different classes get different temporary classes for the same
      property and flag, so the lookup can send each one back. */
  lemma TempIriInjective(c1: IRI, c2: IRI, prop: IRI, isReflexive: bool)
    requires TempIri(c1, prop, isReflexive) == TempIri(c2, prop, isReflexive)
    ensures c1 == c2
  {
    SuffixCancels(c1 + "-", c2 + "-", Suffix(prop, isReflexive));
    SuffixCancels(c1, c2, "-");
  }

  /** `mat.lookup`: each class of the signature's temporary class, mapped
      back to that class. */
  function MaterializeLookup(classes: set<IRI>, prop: IRI, isReflexive: bool): (lookup: map<IRI, IRI>)
    ensures forall c :: c in classes ==> TempIri(c, prop, isReflexive) in lookup && lookup[TempIri(c, prop, isReflexive)] == c
    ensures forall t :: t in lookup ==> lookup[t] in classes && t == TempIri(lookup[t], prop, isReflexive)
  {
    assert forall c1, c2 :: c1 in classes && c2 in classes && TempIri(c1, prop, isReflexive) == TempIri(c2, prop, isReflexive) ==> c1 == c2 by {
      forall c1, c2 | c1 in classes && c2 in classes && TempIri(c1, prop, isReflexive) == TempIri(c2, prop, isReflexive) ensures c1 == c2 {
        TempIriInjective(c1, c2, prop, isReflexive);
      }
    }
    map c | c in classes :: TempIri(c, prop, isReflexive) := c
  }

  /** One superclass after the lookup: the original class if it is a
      temporary one, itself otherwise. */
  function Unfold(lookup: map<IRI, IRI>, x: IRI): IRI
  {
    if x in lookup then lookup[x] else x
  }

  /** getAncestorsOver's result, given the reasoner's superclasses of `cls`. */
  function AncestorsOver(supers: seq<IRI>, lookup: map<IRI, IRI>, cls: IRI, isReflexive: bool): (ancs: seq<IRI>)
    ensures |ancs| == |supers| + (if isReflexive then 1 else 0)
    ensures forall i :: 0 <= i < |supers| ==> ancs[i] == Unfold(lookup, supers[i])
    ensures isReflexive ==> ancs[|supers|] == cls
  {
    var ancs := seq(|supers|, i requires 0 <= i < |supers| => Unfold(lookup, supers[i]));
    if isReflexive then ancs + [cls] else ancs
  }

  /** The query as a whole: materialize over the class signature, then
      unfold. Every temporary class the reasoner returns comes back as the
      class it stands for; every other superclass comes back unchanged. */
  function GetAncestorsOver(classes: set<IRI>, supers: seq<IRI>, cls: IRI, prop: IRI, isReflexive: bool): (ancs: seq<IRI>)
    ensures |ancs| == |supers| + (if isReflexive then 1 else 0)
    ensures forall i, c :: 0 <= i < |supers| && c in classes && supers[i] == TempIri(c, prop, isReflexive) ==> ancs[i] == c
    ensures forall i :: 0 <= i < |supers| && (forall c :: c in classes ==> supers[i] != TempIri(c, prop, isReflexive)) ==>
      ancs[i] == supers[i]
  {
    AncestorsOver(supers, MaterializeLookup(classes, prop, isReflexive), cls, isReflexive)
  }

  /** A reflexive query always answers the class itself, after the
      superclasses. */
  lemma {:induction false} ReflexiveIncludesSelf(classes: set<IRI>, supers: seq<IRI>, cls: IRI, prop: IRI)
    ensures var ancs := GetAncestorsOver(classes, supers, cls, prop, true);
      cls in ancs && ancs[|ancs| - 1] == cls
  {
    var ancs := GetAncestorsOver(classes, supers, cls, prop, true);
    assert ancs[|supers|] == cls;
  }

  /** Every answer is a superclass the reasoner gave, a class of the
      signature reached through its temporary class, or `cls` itself. */
  lemma AnswersAccountedFor(classes: set<IRI>, supers: seq<IRI>, cls: IRI, prop: IRI, isReflexive: bool, a: IRI)
    requires a in GetAncestorsOver(classes, supers, cls, prop, isReflexive)
    ensures a in supers || (a in classes && TempIri(a, prop, isReflexive) in supers) || (isReflexive && a == cls)
  {
    var ancs := GetAncestorsOver(classes, supers, cls, prop, isReflexive);
    var lookup := MaterializeLookup(classes, prop, isReflexive);
    var i :| 0 <= i < |ancs| && ancs[i] == a;
    if i < |supers| && supers[i] in lookup {
      assert supers[i] == TempIri(a, prop, isReflexive);
    }
  }
}
