/** The change records the store appends to `this.changes` (lib/owl.js:68,
    537-541) and the fold that replays a log over an axiom set. The store
    keeps its axioms equal to the replay of its log over the axioms it was
    loaded with. */
module Changes {
  import opened Terms
  import opened Collections

  /** An AddAxiom or RemoveAxiom record of the OWL API. */
  datatype Change = AddAxiom(axiom: Axiom) | RemoveAxiom(axiom: Axiom)

  /** The effect of one change on the set of axioms: adding a present axiom
      or removing an absent one leaves the set as it was. */
  function Apply(s: set<Axiom>, c: Change): (r: set<Axiom>)
    ensures c.AddAxiom? ==> c.axiom in r
    ensures c.RemoveAxiom? ==> c.axiom !in r
    ensures forall ax :: ax != c.axiom ==> (ax in r <==> ax in s)
  {
    match c
    case AddAxiom(ax) => s + {ax}
    case RemoveAxiom(ax) => s - {ax}
  }

  /** The changes of a log applied in order, first to last. */
  function Replay(s: set<Axiom>, log: seq<Change>): set<Axiom>
    decreases |log|
  {
    if log == [] then s else Replay(Apply(s, log[0]), log[1..])
  }

  /** What a replay leaves: an axiom no record names keeps its membership,
      and otherwise the last record naming it decides whether it is present. */
  lemma {:induction false} ReplayLastRecordDecides(s: set<Axiom>, log: seq<Change>)
    ensures forall ax :: (forall k :: 0 <= k < |log| ==> log[k].axiom != ax) ==> (ax in Replay(s, log) <==> ax in s)
    ensures forall k :: 0 <= k < |log| && (forall j :: k < j < |log| ==> log[j].axiom != log[k].axiom) ==>
      (log[k].axiom in Replay(s, log) <==> log[k].AddAxiom?)
    decreases |log|
  {
    if log != [] {
      var rest := log[1..];
      ReplayLastRecordDecides(Apply(s, log[0]), rest);
      assert forall k :: 0 < k < |log| ==> log[k] == rest[k - 1];
    }
  }

  /** Replaying two logs one after the other is replaying their concatenation. */
  lemma {:induction false} ReplayConcat(s: set<Axiom>, a: seq<Change>, b: seq<Change>)
    ensures Replay(s, a + b) == Replay(Replay(s, a), b)
    decreases |a|
  {
    if a == [] {
      assert a + b == b;
    } else {
      assert (a + b)[0] == a[0];
      assert (a + b)[1..] == a[1..] + b;
      ReplayConcat(Apply(s, a[0]), a[1..], b);
    }
  }

  /** Appending one record to the log applies it to the current set. */
  lemma ReplaySnoc(s: set<Axiom>, log: seq<Change>, c: Change)
    ensures Replay(s, log + [c]) == Apply(Replay(s, log), c)
  {
    ReplayConcat(s, log, [c]);
    assert [c][1..] == [];
  }

  /** One AddAxiom record per axiom, in order (addAxioms). */
  function AddsOf(axs: seq<Axiom>): (log: seq<Change>)
    ensures |log| == |axs|
    ensures forall k :: 0 <= k < |axs| ==> log[k] == AddAxiom(axs[k])
  {
    seq(|axs|, k requires 0 <= k < |axs| => AddAxiom(axs[k]))
  }

  /** One RemoveAxiom record per axiom, in order (removeAxioms). */
  function RemovesOf(axs: seq<Axiom>): (log: seq<Change>)
    ensures |log| == |axs|
    ensures forall k :: 0 <= k < |axs| ==> log[k] == RemoveAxiom(axs[k])
  {
    seq(|axs|, k requires 0 <= k < |axs| => RemoveAxiom(axs[k]))
  }

  /** Replaying the records of addAxioms adds exactly the listed axioms. */
  lemma {:induction false} ReplayAdds(s: set<Axiom>, axs: seq<Axiom>)
    ensures Replay(s, AddsOf(axs)) == s + Elems(axs)
    decreases |axs|
  {
    if axs != [] {
      assert AddsOf(axs)[1..] == AddsOf(axs[1..]);
      ReplayAdds(s + {axs[0]}, axs[1..]);
      assert Elems(axs) == {axs[0]} + Elems(axs[1..]);
    }
  }

  /** Replaying the records of removeAxioms removes exactly the listed axioms. */
  lemma {:induction false} ReplayRemoves(s: set<Axiom>, axs: seq<Axiom>)
    ensures Replay(s, RemovesOf(axs)) == s - Elems(axs)
    decreases |axs|
  {
    if axs != [] {
      assert RemovesOf(axs)[1..] == RemovesOf(axs[1..]);
      ReplayRemoves(s - {axs[0]}, axs[1..]);
      assert Elems(axs) == {axs[0]} + Elems(axs[1..]);
    }
  }

  /** Adding an axiom twice leaves the same set as adding it once; only the
      log differs. */
  lemma AddTwiceIsAddOnce(s: set<Axiom>, log: seq<Change>, a: Axiom)
    ensures Replay(s, log + [AddAxiom(a), AddAxiom(a)]) == Replay(s, log + [AddAxiom(a)])
  {
    assert log + [AddAxiom(a), AddAxiom(a)] == (log + [AddAxiom(a)]) + [AddAxiom(a)];
    ReplaySnoc(s, log + [AddAxiom(a)], AddAxiom(a));
    ReplaySnoc(s, log, AddAxiom(a));
  }

  /** Removing an axiom a second time changes nothing. */
  lemma RemoveTwiceIsRemoveOnce(s: set<Axiom>, log: seq<Change>, a: Axiom)
    ensures Replay(s, log + [RemoveAxiom(a), RemoveAxiom(a)]) == Replay(s, log + [RemoveAxiom(a)])
  {
    assert log + [RemoveAxiom(a), RemoveAxiom(a)] == (log + [RemoveAxiom(a)]) + [RemoveAxiom(a)];
    ReplaySnoc(s, log + [RemoveAxiom(a)], RemoveAxiom(a));
    ReplaySnoc(s, log, RemoveAxiom(a));
  }
}
