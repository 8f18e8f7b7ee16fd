/** The value types the library manipulates through the OWL API: IRIs,
    class expressions, annotation values and axioms, compared structurally,
    and the constructors of lib/owl.js that collect their operands into a
    `java.util.HashSet` (intersectionOf, unionOf, equivalentClasses,
    disjointClasses, disjointUnion with its helper flattenArgs). */
module Terms {
  import opened Collections

  /** An IRI, compared as its string. */
  type IRI = string

  /** rdfs:label, the property getLabel and labelAssertion use. */
  const RdfsLabel: IRI := "http://www.w3.org/2000/01/rdf-schema#label"

  datatype Option<+T> = None | Some(value: T)

  /** The exceptions the modelled operations can raise. */
  datatype Error =
    | MissingArgument       // an argument position read past the end of `arguments`
    | NotAList              // flattenArgs returned something that has no forEach, or a splice that does not exist
    | NotAClassExpression   // an operand that is neither a string, an IRI nor a class expression
    | NotAnAxiom            // `new AddAxiom(ont, x)` with an x that is not an axiom
    | LabelNotALiteral      // getLiteral() called on an IRI-valued label

  datatype Result<+T> = Ok(value: T) | Err(error: Error)

  datatype EntityKind = ClassEntity | ObjectPropertyEntity | AnnotationPropertyEntity | IndividualEntity

  /** A named entity of the signature. */
  datatype Entity = Entity(kind: EntityKind, iri: IRI)

  /** Class expressions; the operands of the n-ary ones form a set. */
  datatype ClassExpr =
    | Named(iri: IRI)
    | SomeValuesFrom(property: IRI, filler: ClassExpr)
    | IntersectionOf(operands: set<ClassExpr>)
    | UnionOf(operands: set<ClassExpr>)

  /** The value of an annotation: a literal or an IRI. */
  datatype Value = Literal(lexical: string) | IriValue(iri: IRI)

  /** Axioms, identified by their content. */
  datatype Axiom =
    | SubClassOf(sub: ClassExpr, sup: ClassExpr)
    | EquivalentClasses(members: set<ClassExpr>)
    | DisjointClasses(members: set<ClassExpr>)
    | DisjointUnion(cls: IRI, members: set<ClassExpr>)
    | ClassAssertion(classExpr: ClassExpr, individual: IRI)
    | AnnotationAssertion(property: IRI, subject: IRI, value: Value)

  /** A constructor argument before ensureClassExpression: a string or IRI,
      a class expression, or some other OWL object. */
  datatype Operand = IriOperand(iri: IRI) | ExprOperand(expr: ClassExpr) | OtherOperand

  /** A positional argument of disjointUnion: one operand, or a JS list. */
  datatype Arg = One(operand: Operand) | Many(items: seq<Operand>)

  /** The HashSet filled by one `add` per argument, in argument order. */
  function OperandSet(args: seq<ClassExpr>): (s: set<ClassExpr>)
    ensures forall x :: x in s <==> x in args
    ensures |s| <= |args|
  {
    if args == [] then {} else OperandSet(args[..|args| - 1]) + {args[|args| - 1]}
  }

  /** Without repeated arguments nothing collapses. */
  lemma {:induction false} DistinctOperandsKeepCount(args: seq<ClassExpr>)
    requires Distinct(args)
    ensures |OperandSet(args)| == |args|
  {
    if args != [] {
      var init := args[..|args| - 1];
      assert Distinct(init);
      DistinctOperandsKeepCount(init);
      assert args[|args| - 1] !in init;
    }
  }

  /** Argument order is not significant: the same arguments in any order
      (or with repeats) build the same operand set. */
  lemma OperandOrderIrrelevant(a: seq<ClassExpr>, b: seq<ClassExpr>)
    requires Elems(a) == Elems(b)
    ensures OperandSet(a) == OperandSet(b)
  {
    assert forall x :: x in OperandSet(a) <==> x in Elems(a);
    assert forall x :: x in OperandSet(b) <==> x in Elems(b);
  }

  /** intersectionOf(x1, ..., xn). */
  function IntersectionOfArgs(args: seq<ClassExpr>): (e: ClassExpr)
    ensures e.IntersectionOf?
    ensures forall x :: x in e.operands <==> x in args
  {
    IntersectionOf(OperandSet(args))
  }

  /** unionOf(x1, ..., xn). */
  function UnionOfArgs(args: seq<ClassExpr>): (e: ClassExpr)
    ensures e.UnionOf?
    ensures forall x :: x in e.operands <==> x in args
  {
    UnionOf(OperandSet(args))
  }

  /** disjointClasses(x1, ..., xn): the arguments go into the set unconverted. */
  function DisjointClassesOf(args: seq<ClassExpr>): (ax: Axiom)
    ensures ax.DisjointClasses?
    ensures forall x :: x in ax.members <==> x in args
  {
    DisjointClasses(OperandSet(args))
  }

  /** ensureClassExpression: a string or IRI becomes the named class and a
      class expression passes unchanged. Anything else is returned with a
      warning; the model treats it as an error at this point. */
  function EnsureClassExpression(o: Operand): (r: Result<ClassExpr>)
    ensures r.Ok? <==> !o.OtherOperand?
    ensures o.IriOperand? ==> r == Ok(Named(o.iri))
    ensures o.ExprOperand? ==> r == Ok(o.expr)
  {
    match o
    case IriOperand(iri) => Ok(Named(iri))
    case ExprOperand(e) => Ok(e)
    case OtherOperand => Err(NotAClassExpression)
  }

  predicate IsClassOperand(o: Operand)
  {
    !o.OtherOperand?
  }

  /** The class expressions of operands that all convert. */
  function ClassExprs(ops: seq<Operand>): (es: seq<ClassExpr>)
    requires forall i :: 0 <= i < |ops| ==> IsClassOperand(ops[i])
    ensures |es| == |ops|
    ensures forall i :: 0 <= i < |ops| ==> EnsureClassExpression(ops[i]) == Ok(es[i])
  {
    seq(|ops|, i requires 0 <= i < |ops| && IsClassOperand(ops[i]) => EnsureClassExpression(ops[i]).value)
  }

  /** equivalentClasses(x1, ..., xn): every argument goes through
      ensureClassExpression before it is added to the set. */
  function EquivalentClassesOf(args: seq<Operand>): (r: Result<Axiom>)
    ensures r.Ok? <==> forall i :: 0 <= i < |args| ==> IsClassOperand(args[i])
    ensures r.Ok? ==> r.value.EquivalentClasses?
    ensures r.Ok? ==> forall e :: e in r.value.members <==>
      exists i :: 0 <= i < |args| && EnsureClassExpression(args[i]) == Ok(e)
  {
    if forall i :: 0 <= i < |args| ==> IsClassOperand(args[i]) then
      var es := ClassExprs(args);
      assert forall e :: e in es <==> exists i :: 0 <= i < |args| && EnsureClassExpression(args[i]) == Ok(e) by {
        forall e | e in es ensures exists i :: 0 <= i < |args| && EnsureClassExpression(args[i]) == Ok(e) {
          var i :| 0 <= i < |es| && es[i] == e;
          assert EnsureClassExpression(args[i]) == Ok(e);
        }
      }
      Ok(EquivalentClasses(OperandSet(es)))
    else
      Err(NotAClassExpression)
  }

  /** Each operand of a list, as a positional argument of its own. */
  function Spread(items: seq<Operand>): (args: seq<Arg>)
    ensures |args| == |items|
    ensures forall k :: 0 <= k < |items| ==> args[k] == One(items[k])
  {
    seq(|items|, k requires 0 <= k < |items| => One(items[k]))
  }

  /** flattenArgs(args, i) as written: a list at position i is returned
      whole; a string there also has a `length` and is returned as if it
      were the list, so the caller's `forEach` fails; any other argument
      reaches `args.splice(i)`, which an `arguments` object does not have. */
  function FlattenArgsAsWritten(args: seq<Arg>, i: nat): (r: Result<seq<Arg>>)
    ensures i >= |args| ==> r == Err(MissingArgument)
    ensures r.Ok? <==> i < |args| && args[i].Many?
    ensures r.Ok? ==> r.value == Spread(args[i].items)
  {
    if i >= |args| then Err(MissingArgument)
    else match args[i]
      case Many(items) => Ok(Spread(items))
      case One(_) => Err(NotAList)
  }

  /** flattenArgs(args, i) as intended: the list at position i, or every
      argument from position i on. */
  function FlattenArgs(args: seq<Arg>, i: nat): (r: Result<seq<Arg>>)
    ensures i >= |args| <==> r.Err?
    ensures r.Ok? && args[i].Many? ==> r.value == Spread(args[i].items)
    ensures r.Ok? && args[i].One? ==> r.value == args[i..]
  {
    if i >= |args| then Err(MissingArgument)
    else match args[i]
      case Many(items) => Ok(Spread(items))
      case One(_) => Ok(args[i..])
  }

  /** Varargs calls are rejected as written, whatever the operands. */
  lemma {:induction false} VarargsRejectedAsWritten(c: Arg, ops: seq<Operand>)
    requires |ops| > 0
    ensures FlattenArgsAsWritten([c] + Spread(ops), 1).Err?
    ensures FlattenArgs([c] + Spread(ops), 1) == Ok(Spread(ops))
  {
    var args := [c] + Spread(ops);
    assert args[1] == One(ops[0]);
    assert args[1..] == Spread(ops);
  }

  /** As intended, the two calling conventions agree: the operands spread
      over the argument positions, or given as one list. */
  lemma {:induction false} FlattenConventionsAgree(c: Arg, ops: seq<Operand>)
    requires |ops| > 0
    ensures FlattenArgs([c] + Spread(ops), 1) == FlattenArgs([c, Many(ops)], 1)
  {
    var args := [c] + Spread(ops);
    assert args[1] == One(ops[0]);
    assert args[1..] == Spread(ops);
  }

  predicate IsOperandArg(a: Arg)
  {
    a.One? && IsClassOperand(a.operand)
  }

  /** The set `forEach` fills from the flattened arguments, each through
      ensureClassExpression, and the axiom built from it. */
  function DisjointUnionOver(c: IRI, xs: seq<Arg>): (r: Result<Axiom>)
    ensures r.Ok? <==> forall k :: 0 <= k < |xs| ==> IsOperandArg(xs[k])
    ensures r.Ok? ==> r.value.DisjointUnion? && r.value.cls == c
    ensures r.Ok? ==> forall e :: e in r.value.members <==>
      exists k :: 0 <= k < |xs| && EnsureClassExpression(xs[k].operand) == Ok(e)
  {
    if forall k :: 0 <= k < |xs| ==> IsOperandArg(xs[k]) then
      var ops := seq(|xs|, k requires 0 <= k < |xs| => xs[k].operand);
      var es := ClassExprs(ops);
      assert forall e :: e in es <==> exists k :: 0 <= k < |xs| && EnsureClassExpression(xs[k].operand) == Ok(e) by {
        forall e | e in es ensures exists k :: 0 <= k < |xs| && EnsureClassExpression(xs[k].operand) == Ok(e) {
          var k :| 0 <= k < |es| && es[k] == e;
          assert EnsureClassExpression(ops[k]) == Ok(e);
        }
        forall e | exists k :: 0 <= k < |xs| && EnsureClassExpression(xs[k].operand) == Ok(e) ensures e in es {
          var k :| 0 <= k < |xs| && EnsureClassExpression(xs[k].operand) == Ok(e);
          assert EnsureClassExpression(ops[k]) == Ok(es[k]);
        }
      }
      Ok(DisjointUnion(c, OperandSet(es)))
    else
      Err(NotAClassExpression)
  }

  /** Over spread operands, the `forEach` succeeds exactly when every
      operand is a class operand, and collects exactly their conversions. */
  ghost predicate OverSpreadHolds(c: IRI, ops: seq<Operand>)
  {
    var r := DisjointUnionOver(c, Spread(ops));
    (r.Ok? <==> forall k :: 0 <= k < |ops| ==> IsClassOperand(ops[k])) &&
    (r.Ok? ==> forall e :: e in r.value.members <==>
      exists k :: 0 <= k < |ops| && EnsureClassExpression(ops[k]) == Ok(e))
  }

  /** The `forEach` over a spread list reads each operand in place. */
  lemma OverSpread(c: IRI, ops: seq<Operand>)
    ensures OverSpreadHolds(c, ops)
  {
    var xs := Spread(ops);
    assert forall k :: 0 <= k < |ops| ==> xs[k].operand == ops[k];
  }

  /** A single list argument flattens, in either version of flattenArgs, to
      its members spread over positions. */
  lemma ListArgSpreads(c: IRI, ops: seq<Operand>)
    ensures FlattenArgsAsWritten([One(ExprOperand(Named(c)))] + [Many(ops)], 1) == Ok(Spread(ops))
    ensures FlattenArgs([One(ExprOperand(Named(c)))] + [Many(ops)], 1) == Ok(Spread(ops))
    ensures (forall k :: 0 <= k < |Spread(ops)| ==> IsOperandArg(Spread(ops)[k])) <==>
      forall k :: 0 <= k < |ops| ==> IsClassOperand(ops[k])
  {
    var args := [One(ExprOperand(Named(c)))] + [Many(ops)];
    assert args[1] == Many(ops);
  }

  /** disjointUnion(c, ...) as written: the operands after `c` go through
      flattenArgs as written, so only the single-list form
      disjointUnion(c, [x1, ..., xn]) can succeed; operands spread over the
      arguments always fail. */
  function DisjointUnionOf(c: IRI, rest: seq<Arg>): (r: Result<Axiom>)
    ensures rest == [] ==> r == Err(MissingArgument)
    ensures rest != [] && rest[0].One? ==> r == Err(NotAList)
    ensures r.Ok? ==> r.value.DisjointUnion? && r.value.cls == c
    ensures forall ops :: rest == [Many(ops)] ==>
      (r.Ok? <==> forall k :: 0 <= k < |ops| ==> IsClassOperand(ops[k]))
    ensures forall ops :: rest == [Many(ops)] && r.Ok? ==>
      forall e :: e in r.value.members <==>
        exists k :: 0 <= k < |ops| && EnsureClassExpression(ops[k]) == Ok(e)
  {
    var args := [One(ExprOperand(Named(c)))] + rest;
    assert rest != [] ==> args[1] == rest[0];
    assert forall ops :: rest == [Many(ops)] ==> FlattenArgsAsWritten(args, 1) == Ok(Spread(ops)) by {
      forall ops | rest == [Many(ops)] ensures FlattenArgsAsWritten(args, 1) == Ok(Spread(ops)) {
        ListArgSpreads(c, ops);
      }
    }
    match FlattenArgsAsWritten(args, 1)
    case Err(e) => Err(e)
    case Ok(xs) => DisjointUnionOver(c, xs)
  }

  /** disjointUnion(c, ...) with the corrected flattenArgs: the varargs form
      and the single-list form both build the axiom from their operands. */
  function DisjointUnionOfCorrected(c: IRI, rest: seq<Arg>): (r: Result<Axiom>)
    ensures rest == [] ==> r == Err(MissingArgument)
    ensures r.Ok? ==> r.value.DisjointUnion? && r.value.cls == c
    ensures rest != [] && rest[0].One? ==> (r.Ok? <==> forall k :: 0 <= k < |rest| ==> IsOperandArg(rest[k]))
    ensures forall ops :: rest == [Many(ops)] ==>
      (r.Ok? <==> forall k :: 0 <= k < |ops| ==> IsClassOperand(ops[k]))
    ensures forall ops :: rest == [Many(ops)] && r.Ok? ==>
      forall e :: e in r.value.members <==>
        exists k :: 0 <= k < |ops| && EnsureClassExpression(ops[k]) == Ok(e)
    ensures forall ops :: |ops| > 0 && rest == Spread(ops) ==>
      (r.Ok? <==> forall k :: 0 <= k < |ops| ==> IsClassOperand(ops[k]))
    ensures forall ops :: |ops| > 0 && rest == Spread(ops) && r.Ok? ==>
      forall e :: e in r.value.members <==>
        exists k :: 0 <= k < |ops| && EnsureClassExpression(ops[k]) == Ok(e)
  {
    var args := [One(ExprOperand(Named(c)))] + rest;
    assert rest != [] ==> args[1] == rest[0] && args[1..] == rest;
    assert forall ops :: rest == [Many(ops)] || (|ops| > 0 && rest == Spread(ops)) ==>
      FlattenArgs(args, 1) == Ok(Spread(ops)) && OverSpreadHolds(c, ops) by {
      forall ops | rest == [Many(ops)] || (|ops| > 0 && rest == Spread(ops))
        ensures FlattenArgs(args, 1) == Ok(Spread(ops)) && OverSpreadHolds(c, ops)
      {
        ListArgSpreads(c, ops);
        OverSpread(c, ops);
      }
    }
    match FlattenArgs(args, 1)
    case Err(e) => Err(e)
    case Ok(xs) => DisjointUnionOver(c, xs)
  }
}
