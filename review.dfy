/**
 * The review screen's derived state. Each field of a section is shown as a
 * card named after the field; a card is accepted exactly when the field's
 * acceptance flag is set, since the accept and edit handlers set the card's
 * class and the flag together. The section counters and the delivery
 * notification are computed from those cards.
 */
module Review {
  import opened Schema

  /** A card is accepted when its flag is set; a field without a flag is pending. */
  predicate IsAccepted(state: map<string, bool>, name: string) {
    name in state && state[name]
  }

  /** The cards of one section. */
  function SectionCards(c: CategorizedFields, b: Bucket): set<string> {
    Section(c, b).Keys
  }

  /** Every card on the screen (`.field-card`). */
  function AllCards(c: CategorizedFields): set<string> {
    c.highConfidence.Keys + c.doubleCheck.Keys + c.manualInput.Keys
  }

  /** The accepted cards among `cards` (`.field-card.accepted`). */
  function AcceptedCards(cards: set<string>, state: map<string, bool>): (r: set<string>)
    ensures r <= cards
  {
    set n | n in cards && IsAccepted(state, n)
  }

  /** The section a card sits in (sections are disjoint for a categorised schema). */
  function CardSection(c: CategorizedFields, name: string): Bucket {
    if name in c.manualInput then ManualInput
    else if name in c.doubleCheck then DoubleCheck
    else HighConfidence
  }

  /** A section's tab counter: "accepted/total", marked complete or not. */
  datatype Counter = Counter(accepted: nat, total: nat, complete: bool)

  /** A subset is no larger than its superset, and as large only when it is the superset. */
  lemma SubsetSize(a: set<string>, b: set<string>)
    requires a <= b
    ensures |a| <= |b|
    ensures |a| == |b| ==> a == b
  {
    assert |b - a| == |b| - |a|;
    if |a| == |b| {
      assert b - a == {};
    }
  }

  /** The accepted count equals the card count exactly when every card is accepted. */
  lemma AllAcceptedIff(cards: set<string>, state: map<string, bool>)
    ensures |AcceptedCards(cards, state)| <= |cards|
    ensures |AcceptedCards(cards, state)| == |cards| <==> forall n :: n in cards ==> IsAccepted(state, n)
  {
    var accepted := AcceptedCards(cards, state);
    SubsetSize(accepted, cards);
    if forall n :: n in cards ==> IsAccepted(state, n) {
      assert accepted == cards;
    }
  }

  /**
   * `updateSectionCounters` for one section: the counter reads "accepted/total"
   * and is complete exactly when the section has a card and every card in it
   * is accepted.
   */
  function SectionCounter(cards: set<string>, state: map<string, bool>): (r: Counter)
    ensures r.accepted == |AcceptedCards(cards, state)| <= r.total == |cards|
    ensures r.complete <==> cards != {} && forall n :: n in cards ==> IsAccepted(state, n)
  {
    var accepted := |AcceptedCards(cards, state)|;
    AllAcceptedIff(cards, state);
    Counter(accepted, |cards|, accepted == |cards| && |cards| > 0)
  }

  /**
   * `updateDeliveryButton`: the delivery notification is shown exactly when
   * there is at least one card and every card is accepted.
   */
  function DeliveryAvailable(c: CategorizedFields, state: map<string, bool>): (r: bool)
    ensures r <==> AllCards(c) != {} && forall n :: n in AllCards(c) ==> IsAccepted(state, n)
  {
    var all := AllCards(c);
    AllAcceptedIff(all, state);
    |all| > 0 && |AcceptedCards(all, state)| == |all|
  }

  /** A section that has no cards, or whose counter is complete. */
  predicate SectionDone(c: CategorizedFields, b: Bucket, state: map<string, bool>) {
    SectionCards(c, b) == {} || SectionCounter(SectionCards(c, b), state).complete
  }

  /**
   * Delivery becomes available exactly when there is a card and every section
   * is either empty or shows a complete counter.
   */
  lemma DeliveryIffSectionsComplete(c: CategorizedFields, state: map<string, bool>)
    ensures DeliveryAvailable(c, state) <==>
              AllCards(c) != {}
              && SectionDone(c, HighConfidence, state)
              && SectionDone(c, DoubleCheck, state)
              && SectionDone(c, ManualInput, state)
  {
    var h, d, m := c.highConfidence.Keys, c.doubleCheck.Keys, c.manualInput.Keys;
    assert SectionCards(c, HighConfidence) == h;
    assert SectionCards(c, DoubleCheck) == d;
    assert SectionCards(c, ManualInput) == m;
    assert SectionDone(c, HighConfidence, state) <==> forall n :: n in h ==> IsAccepted(state, n);
    assert SectionDone(c, DoubleCheck, state) <==> forall n :: n in d ==> IsAccepted(state, n);
    assert SectionDone(c, ManualInput, state) <==> forall n :: n in m ==> IsAccepted(state, n);
    assert (forall n :: n in AllCards(c) ==> IsAccepted(state, n)) <==>
             (forall n :: n in h ==> IsAccepted(state, n))
             && (forall n :: n in d ==> IsAccepted(state, n))
             && (forall n :: n in m ==> IsAccepted(state, n));
  }

  /** Editing any card withdraws delivery. */
  lemma EditWithdrawsDelivery(c: CategorizedFields, state: map<string, bool>, name: string)
    requires name in AllCards(c)
    ensures !DeliveryAvailable(c, state[name := false])
    ensures !SectionCounter(SectionCards(c, CardSection(c, name)), state[name := false]).complete
  {
    assert name in SectionCards(c, CardSection(c, name));
  }

  /** Accepting the last pending card makes delivery available. */
  lemma AcceptLastCard(c: CategorizedFields, state: map<string, bool>, name: string)
    requires name in AllCards(c)
    requires forall n :: n in AllCards(c) && n != name ==> IsAccepted(state, n)
    ensures DeliveryAvailable(c, state[name := true])
  {
  }
}
