/** The pieces of genIRI (lib/owl.js:1202-1250) that do not touch the
    store's state: the `%07d` local identifier, the OBO PURL and compact
    identifier built from it, the three checks that call a candidate used,
    the literal scan of the third check, and the bound beyond which no
    candidate can be used (which is why the search ends). */
module IdAlloc {
  import opened Terms
  import opened Collections

  const OboPrefix: string := "http://purl.obolibrary.org/obo/"

  predicate IsDigit(c: char)
  {
    '0' <= c <= '9'
  }

  predicate AllDigits(s: string)
  {
    forall i :: 0 <= i < |s| ==> IsDigit(s[i])
  }

  function DigitChar(d: nat): (c: char)
    requires d < 10
    ensures IsDigit(c) && c as int - '0' as int == d
  {
    ('0' as int + d) as char
  }

  /** The decimal digits of n, without leading zeros. */
  function Decimal(n: nat): (s: string)
    ensures |s| >= 1 && AllDigits(s)
    decreases n
  {
    if n < 10 then [DigitChar(n)] else Decimal(n / 10) + [DigitChar(n % 10)]
  }

  function Zeros(k: nat): (s: string)
    ensures |s| == k && forall i :: 0 <= i < k ==> s[i] == '0'
  {
    seq(k, _ => '0')
  }

  /** String.format("%07d", n) for n >= 0: the digits of n, left-padded with
      zeros to seven characters. */
  function Pad7(n: nat): (s: string)
    ensures AllDigits(s)
    ensures |s| == if |Decimal(n)| < 7 then 7 else |Decimal(n)|
  {
    var d := Decimal(n);
    if |d| < 7 then Zeros(7 - |d|) + d else d
  }

  /** The number a digit string denotes. */
  function DigitsValue(s: string): nat
    requires AllDigits(s)
  {
    if s == [] then 0 else DigitsValue(s[..|s| - 1]) * 10 + (s[|s| - 1] as int - '0' as int)
  }

  lemma {:induction false} DecimalValue(n: nat)
    ensures DigitsValue(Decimal(n)) == n
    decreases n
  {
    if n >= 10 {
      var s := Decimal(n);
      assert s[..|s| - 1] == Decimal(n / 10);
      DecimalValue(n / 10);
    }
  }

  lemma {:induction false} ZerosValue(k: nat)
    ensures DigitsValue(Zeros(k)) == 0
  {
    if k > 0 {
      assert Zeros(k)[..k - 1] == Zeros(k - 1);
      ZerosValue(k - 1);
    }
  }

  lemma {:induction false} LeadingZerosValue(k: nat, s: string)
    requires AllDigits(s)
    ensures DigitsValue(Zeros(k) + s) == DigitsValue(s)
    decreases |s|
  {
    if s == [] {
      assert Zeros(k) + s == Zeros(k);
      ZerosValue(k);
    } else {
      var t := Zeros(k) + s;
      assert t[..|t| - 1] == Zeros(k) + s[..|s| - 1];
      LeadingZerosValue(k, s[..|s| - 1]);
    }
  }

  /** Zero padding loses nothing: the padded string still denotes n. */
  lemma Pad7Value(n: nat)
    ensures DigitsValue(Pad7(n)) == n
  {
    DecimalValue(n);
    if |Decimal(n)| < 7 {
      LeadingZerosValue(7 - |Decimal(n)|, Decimal(n));
    }
  }

  /** http://purl.obolibrary.org/obo/<idspace>_<localId>. */
  function CandidateIri(idspace: string, n: nat): (iri: IRI)
    ensures var p := OboPrefix + idspace + "_";
      |iri| >= |p| + 7 && iri[..|p|] == p && AllDigits(iri[|p|..])
  {
    OboPrefix + idspace + "_" + Pad7(n)
  }

  /** <idspace>:<localId>. */
  function CompactId(idspace: string, n: nat): (id: string)
    ensures |id| > |idspace| + 1 && id[..|idspace|] == idspace && id[|idspace|] == ':'
    ensures id[|idspace| + 1..] == CandidateIri(idspace, n)[|OboPrefix| + |idspace| + 1..]
  {
    idspace + ":" + Pad7(n)
  }

  /** The counter an IRI of `idspace` carries, if it has the minted shape. */
  function CounterOf(idspace: string, iri: IRI): Option<nat>
  {
    var p := OboPrefix + idspace + "_";
    if |iri| > |p| && iri[..|p|] == p && AllDigits(iri[|p|..]) then Some(DigitsValue(iri[|p|..])) else None
  }

  /** The counter can be read back out of a minted IRI. */
  lemma CounterRoundTrip(idspace: string, n: nat)
    ensures CounterOf(idspace, CandidateIri(idspace, n)) == Some(n)
  {
    var p := OboPrefix + idspace + "_";
    var iri := CandidateIri(idspace, n);
    assert iri == p + Pad7(n);
    assert iri[..|p|] == p;
    assert iri[|p|..] == Pad7(n);
    Pad7Value(n);
  }

  /** Distinct counters give distinct IRIs. */
  lemma CandidateInjective(idspace: string, m: nat, n: nat)
    requires CandidateIri(idspace, m) == CandidateIri(idspace, n)
    ensures m == n
  {
    CounterRoundTrip(idspace, m);
    CounterRoundTrip(idspace, n);
  }

  /** Check (a): some annotation assertion has the candidate as subject. */
  predicate AnnotatedAt(axioms: set<Axiom>, iri: IRI)
    ensures AnnotatedAt(axioms, iri) <==> |set ax | ax in axioms && ax.AnnotationAssertion? && ax.subject == iri| > 0
  {
    var about := set ax | ax in axioms && ax.AnnotationAssertion? && ax.subject == iri;
    assert (exists ax :: ax in axioms && ax.AnnotationAssertion? && ax.subject == iri) <==> |about| > 0 by {
      if exists ax :: ax in axioms && ax.AnnotationAssertion? && ax.subject == iri {
        var ax :| ax in axioms && ax.AnnotationAssertion? && ax.subject == iri;
        assert ax in about;
      }
      if |about| > 0 {
        var ax :| ax in about;
      }
    }
    exists ax :: ax in axioms && ax.AnnotationAssertion? && ax.subject == iri
  }

  /** An axiom getAxioms(OWLClass) returns for the class named `iri`. */
  predicate Describes(ax: Axiom, iri: IRI)
  {
    match ax
    case SubClassOf(sub, _) => sub == Named(iri)
    case EquivalentClasses(ms) => Named(iri) in ms
    case DisjointClasses(ms) => Named(iri) in ms
    case DisjointUnion(c, _) => c == iri
    case ClassAssertion(_, _) => false
    case AnnotationAssertion(_, _, _) => false
  }

  /** Check (b): some axiom is about the class of that IRI. */
  predicate DescribesClass(axioms: set<Axiom>, iri: IRI)
    ensures DescribesClass(axioms, iri) <==> |set ax | ax in axioms && Describes(ax, iri)| > 0
  {
    var about := set ax | ax in axioms && Describes(ax, iri);
    assert (exists ax :: ax in axioms && Describes(ax, iri)) <==> |about| > 0 by {
      if exists ax :: ax in axioms && Describes(ax, iri) {
        var ax :| ax in axioms && Describes(ax, iri);
        assert ax in about;
      }
      if |about| > 0 {
        var ax :| ax in about;
      }
    }
    exists ax :: ax in axioms && Describes(ax, iri)
  }

  /** An annotation assertion whose literal value is either form of the identifier. */
  predicate MentionsLiterally(ax: Axiom, iriStr: string, id: string)
  {
    ax.AnnotationAssertion? && ax.value.Literal? && (ax.value.lexical == iriStr || ax.value.lexical == id)
  }

  /** Check (c): only annotation assertions with a literal value count. */
  predicate MentionedAsLiteral(axioms: set<Axiom>, iriStr: string, id: string)
    ensures MentionedAsLiteral(axioms, iriStr, id) <==>
      exists ax :: ax in axioms && ax.AnnotationAssertion? && ax.value in {Literal(iriStr), Literal(id)}
  {
    exists ax :: ax in axioms && MentionsLiterally(ax, iriStr, id)
  }

  /** Whether one axiom, on its own, makes genIRI reject counter n. */
  predicate UsesCandidate(ax: Axiom, idspace: string, n: nat)
  {
    var iri := CandidateIri(idspace, n);
    (ax.AnnotationAssertion? && ax.subject == iri) || Describes(ax, iri) || MentionsLiterally(ax, iri, CompactId(idspace, n))
  }

  /** Whether genIRI rejects counter n: the three checks together amount
      to one axiom of the ontology that uses the candidate. */
  predicate IsUsed(axioms: set<Axiom>, idspace: string, n: nat)
    ensures IsUsed(axioms, idspace, n) <==> exists ax :: ax in axioms && UsesCandidate(ax, idspace, n)
  {
    var iri := CandidateIri(idspace, n);
    AnnotatedAt(axioms, iri) || DescribesClass(axioms, iri) || MentionedAsLiteral(axioms, iri, CompactId(idspace, n))
  }

  /** The loop of check (c): stop at the first annotation assertion whose
      literal value equals the full IRI or the compact identifier. */
  method ScanLiterals(aaas: seq<Axiom>, iriStr: string, id: string) returns (used: bool)
    ensures used <==> exists k :: 0 <= k < |aaas| && MentionsLiterally(aaas[k], iriStr, id)
  {
    used := false;
    var k := 0;
    while k < |aaas|
      invariant 0 <= k <= |aaas|
      invariant forall j :: 0 <= j < k ==> !MentionsLiterally(aaas[j], iriStr, id)
    {
      var ax := aaas[k];
      if ax.AnnotationAssertion? && ax.value.Literal? && ax.value.lexical == iriStr {
        used := true;
        break;
      }
      if ax.AnnotationAssertion? && ax.value.Literal? && ax.value.lexical == id {
        used := true;
        break;
      }
      k := k + 1;
    }
  }

  /** genIRI's answer: the counter after `last` that is free, with every
      counter in between used. */
  ghost predicate IsFirstFree(axioms: set<Axiom>, idspace: string, last: nat, n: nat)
  {
    && last < n
    && !IsUsed(axioms, idspace, n)
    && forall m :: last < m < n ==> IsUsed(axioms, idspace, m)
  }

  /** Every counter after `last` and before `n` is used. */
  ghost predicate UsedBetween(axioms: set<Axiom>, idspace: string, last: nat, n: nat)
  {
    forall m :: last < m < n ==> IsUsed(axioms, idspace, m)
  }

  /** A used counter extends the run of used counters. */
  lemma UsedBetweenStep(axioms: set<Axiom>, idspace: string, last: nat, n: nat)
    requires UsedBetween(axioms, idspace, last, n) && IsUsed(axioms, idspace, n)
    ensures UsedBetween(axioms, idspace, last, n + 1)
  {
  }

  /** A free counter at the end of a run of used ones is the first free one. */
  lemma FirstFreeFound(axioms: set<Axiom>, idspace: string, last: nat, n: nat)
    requires last < n && UsedBetween(axioms, idspace, last, n) && !IsUsed(axioms, idspace, n)
    ensures IsFirstFree(axioms, idspace, last, n)
  {
  }

  /** Only one counter is the first free one. */
  lemma FirstFreeUnique(axioms: set<Axiom>, idspace: string, last: nat, a: nat, b: nat)
    requires IsFirstFree(axioms, idspace, last, a) && IsFirstFree(axioms, idspace, last, b)
    ensures a == b
  {
  }

  /** The strings the three checks compare a candidate against. */
  function Mentions(ax: Axiom): set<string>
  {
    match ax
    case SubClassOf(sub, _) => if sub.Named? then {sub.iri} else {}
    case EquivalentClasses(ms) => set e | e in ms && e.Named? :: e.iri
    case DisjointClasses(ms) => set e | e in ms && e.Named? :: e.iri
    case DisjointUnion(c, _) => {c}
    case ClassAssertion(_, _) => {}
    case AnnotationAssertion(_, subj, v) => {subj} + (if v.Literal? then {v.lexical} else {})
  }

  function Names(axioms: set<Axiom>): set<string>
  {
    set ax, s | ax in axioms && s in Mentions(ax) :: s
  }

  /** A used candidate occurs among the store's strings. */
  lemma UsedIsMentioned(axioms: set<Axiom>, idspace: string, n: nat)
    requires IsUsed(axioms, idspace, n)
    ensures CandidateIri(idspace, n) in Names(axioms) || CompactId(idspace, n) in Names(axioms)
  {
    var iri := CandidateIri(idspace, n);
    if AnnotatedAt(axioms, iri) {
      var ax :| ax in axioms && ax.AnnotationAssertion? && ax.subject == iri;
      assert iri in Mentions(ax);
    } else if DescribesClass(axioms, iri) {
      var ax :| ax in axioms && Describes(ax, iri);
      assert iri in Mentions(ax);
    } else {
      var ax :| ax in axioms && MentionsLiterally(ax, iri, CompactId(idspace, n));
      assert ax.value.lexical in Mentions(ax);
    }
  }

  /** The length of the longest string. */
  ghost function MaxLen(names: set<string>): (m: nat)
    ensures forall s :: s in names ==> |s| <= m
    decreases names
  {
    if names == {} then 0
    else
      var s :| s in names;
      var m := MaxLen(names - {s});
      if |s| > m then |s| else m
  }

  function Pow10(k: nat): (p: nat)
    ensures p >= 1
  {
    if k == 0 then 1 else 10 * Pow10(k - 1)
  }

  lemma {:induction false} DecimalLength(n: nat, k: nat)
    requires n >= Pow10(k)
    ensures |Decimal(n)| > k
  {
    if k > 0 {
      assert n / 10 >= Pow10(k - 1);
      DecimalLength(n / 10, k - 1);
    }
  }

  /** Counters whose digits outgrow every string in the store are free, so
      the search of genIRI stops below this bound. */
  lemma UnusedBeyondBound(axioms: set<Axiom>, idspace: string, n: nat)
    requires n >= Pow10(MaxLen(Names(axioms)))
    ensures !IsUsed(axioms, idspace, n)
  {
    var bound := MaxLen(Names(axioms));
    DecimalLength(n, bound);
    assert |CandidateIri(idspace, n)| > bound;
    assert |CompactId(idspace, n)| > bound;
    if IsUsed(axioms, idspace, n) {
      UsedIsMentioned(axioms, idspace, n);
      assert false;
    }
  }

  /** Only finitely many counters are used: all of them lie below a bound. */
  lemma UsedBounded(axioms: set<Axiom>, idspace: string) returns (bound: nat)
    ensures forall n: nat :: IsUsed(axioms, idspace, n) ==> n < bound
  {
    bound := Pow10(MaxLen(Names(axioms)));
    forall n: nat | n >= bound ensures !IsUsed(axioms, idspace, n) {
      UnusedBeyondBound(axioms, idspace, n);
    }
  }

  /** The classes minted for the counters after `last` and before `n`,
      each stated to be a subclass of `top`. */
  function MintedRange(idspace: string, top: ClassExpr, last: nat, n: nat): set<Axiom>
  {
    set k: nat | last < k < n :: SubClassOf(Named(CandidateIri(idspace, k)), top)
  }

  /** When exactly the counters between `last` and `n` name described
      classes, the search lands on n. */
  lemma FirstFreeAfterMintedRange(idspace: string, top: ClassExpr, last: nat, n: nat)
    requires last < n
    ensures IsFirstFree(MintedRange(idspace, top, last, n), idspace, last, n)
  {
    var axioms := MintedRange(idspace, top, last, n);
    forall m | last < m < n ensures IsUsed(axioms, idspace, m) {
      var ax := SubClassOf(Named(CandidateIri(idspace, m)), top);
      assert ax in axioms;
      assert Describes(ax, CandidateIri(idspace, m));
    }
    var iri := CandidateIri(idspace, n);
    forall ax | ax in axioms ensures !Describes(ax, iri) {
      var k: nat :| last < k < n && ax == SubClassOf(Named(CandidateIri(idspace, k)), top);
      if Describes(ax, iri) {
        CandidateInjective(idspace, k, n);
      }
    }
  }

  /** With classes CL_0000001 to CL_0000005 described and the counter at 0,
      genIRI's answer is CL_0000006. */
  lemma FirstFreeExample(top: ClassExpr)
    ensures IsFirstFree(MintedRange("CL", top, 0, 6), "CL", 0, 6)
    ensures CandidateIri("CL", 6) == "http://purl.obolibrary.org/obo/CL_0000006"
  {
    FirstFreeAfterMintedRange("CL", top, 0, 6);
    assert Decimal(6) == "6";
    assert Zeros(6) == "000000";
  }
}
