/** The public events grid (Frontend/src/components/Events.tsx): clicking a
    card flips it over, clicking it again flips it back, and clicking another
    card flips that one instead. */
module Events {
  import opened Common

  /** The click handler's state update: clicking the flipped card unflips it,
      clicking any other card makes it the flipped one. */
  function Toggle(flipped: Option<nat>, index: nat): (next: Option<nat>)
    ensures next == None <==> flipped == Some(index)
    ensures next != None ==> next == Some(index)
  {
    if flipped == Some(index) then None else Some(index)
  }

  /** The flipped card after a run of clicks, in order. */
  function AfterClicks(flipped: Option<nat>, clicks: seq<nat>): Option<nat>
    decreases |clicks|
  {
    if clicks == [] then flipped
    else AfterClicks(Toggle(flipped, clicks[0]), clicks[1..])
  }

  /** Two clicks on the same card from the unflipped grid leave it unflipped. */
  lemma DoubleClickRestores(index: nat)
    ensures AfterClicks(None, [index, index]) == None
  {
    assert [index, index][1..] == [index];
    assert AfterClicks(Some(index), [index]) == AfterClicks(None, []);
  }

  /** Clicking the same card n times leaves it flipped exactly when n is odd. */
  lemma {:induction false} RepeatedClicks(index: nat, n: nat)
    ensures AfterClicks(None, seq(n, _ => index)) == if n % 2 == 0 then None else Some(index)
  {
    if n >= 2 {
      var clicks := seq(n, _ => index);
      assert clicks[1..][1..] == seq(n - 2, _ => index);
      RepeatedClicks(index, n - 2);
    } else if n == 1 {
      assert seq(1, _ => index)[1..] == [];
    }
  }

  /** Whatever the clicks, at most one card is flipped and, if one is, it is
      the card clicked last. */
  lemma {:induction false} FlippedIsLastClicked(flipped: Option<nat>, clicks: seq<nat>)
    requires clicks != []
    ensures var f := AfterClicks(flipped, clicks);
            f == None || f == Some(clicks[|clicks| - 1])
    decreases |clicks|
  {
    if |clicks| > 1 {
      FlippedIsLastClicked(Toggle(flipped, clicks[0]), clicks[1..]);
    }
  }

  /** The component's one piece of state: the index of the flipped card, or none. */
  class EventCards {
    var flippedCard: Option<nat>

    constructor ()
      ensures flippedCard == None
    {
      flippedCard := None;
    }

    /** Whether card `index` is shown with its back up. */
    predicate IsFlipped(index: nat)
      reads this
    {
      flippedCard == Some(index)
    }

    /** handleCardClick */
    method HandleCardClick(index: nat)
      modifies this
      ensures flippedCard == Toggle(old(flippedCard), index)
      ensures IsFlipped(index) <==> !old(IsFlipped(index))
      ensures forall j: nat :: j != index ==> !IsFlipped(j)
    {
      flippedCard := if flippedCard == Some(index) then None else Some(index);
    }
  }
}
