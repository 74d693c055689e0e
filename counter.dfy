/**
 * The interactive counter: one integer changed by three buttons, re-rendered
 * after every change together with a feedback banner chosen by the value.
 */
module Counter {
  import JsText

  /** The CSS class of the feedback banner. */
  datatype Tone = Success | Warning

  datatype CounterFeedback = CounterFeedback(message: string, tone: Tone)

  /** The banner `updateCounter` shows for a given count. */
  function Feedback(count: int): CounterFeedback
  {
    if count == 0 then CounterFeedback("Starting fresh!", Success)
    else if count > 0 && count <= 5 then CounterFeedback("Keep going!", Success)
    else if count > 5 then CounterFeedback("Wow, you're on fire!", Success)
    else if count < 0 && count >= -5 then CounterFeedback("Going negative...", Warning)
    else CounterFeedback("Deep in the negatives!", Warning)
  }

  /** Each banner message belongs to exactly one range of counts, and the tone is a warning exactly below zero. */
  lemma FeedbackRanges(count: int)
    ensures Feedback(count).message == "Starting fresh!" <==> count == 0
    ensures Feedback(count).message == "Keep going!" <==> 1 <= count <= 5
    ensures Feedback(count).message == "Wow, you're on fire!" <==> count >= 6
    ensures Feedback(count).message == "Going negative..." <==> -5 <= count <= -1
    ensures Feedback(count).message == "Deep in the negatives!" <==> count <= -6
    ensures Feedback(count).tone == Warning <==> count < 0
  {
  }

  /** The classification at the boundaries of its ranges. */
  lemma FeedbackBoundaries()
    ensures Feedback(0) == CounterFeedback("Starting fresh!", Success)
    ensures Feedback(1) == CounterFeedback("Keep going!", Success)
    ensures Feedback(5) == CounterFeedback("Keep going!", Success)
    ensures Feedback(6) == CounterFeedback("Wow, you're on fire!", Success)
    ensures Feedback(-1) == CounterFeedback("Going negative...", Warning)
    ensures Feedback(-5) == CounterFeedback("Going negative...", Warning)
    ensures Feedback(-6) == CounterFeedback("Deep in the negatives!", Warning)
  {
  }

  /** A press of one of the three buttons. */
  datatype Press = Increase | Decrease | Reset

  /** The count after one press. */
  function Step(count: int, press: Press): int
  {
    match press
    case Increase => count + 1
    case Decrease => count - 1
    case Reset => 0
  }

  /** The count after a sequence of presses, starting from `count`. */
  function Replay(count: int, presses: seq<Press>): int
    decreases presses
  {
    if presses == [] then count else Replay(Step(count, presses[0]), presses[1..])
  }

  lemma {:induction false} ReplayConcat(count: int, first: seq<Press>, second: seq<Press>)
    ensures Replay(count, first + second) == Replay(Replay(count, first), second)
    decreases first
  {
    if first != [] {
      assert (first + second)[1..] == first[1..] + second;
      ReplayConcat(Step(count, first[0]), first[1..], second);
    } else {
      assert first + second == second;
    }
  }

  /** Without a reset, the count moves by the number of increments minus the number of decrements. */
  lemma {:induction false} ReplayWithoutReset(count: int, presses: seq<Press>)
    requires Reset !in presses
    ensures Replay(count, presses) == count + multiset(presses)[Increase] - multiset(presses)[Decrease]
    decreases presses
  {
    if presses != [] {
      assert presses == [presses[0]] + presses[1..];
      ReplayWithoutReset(Step(count, presses[0]), presses[1..]);
    }
  }

  /** From the initial 0, n increments and m decrements in any order leave n - m. */
  lemma FromZero(presses: seq<Press>)
    requires Reset !in presses
    ensures Replay(0, presses) == multiset(presses)[Increase] as int - multiset(presses)[Decrease] as int
  {
    ReplayWithoutReset(0, presses);
  }

  /** A reset forgets everything that came before it. */
  lemma ResetForgets(count: int, before: seq<Press>, after: seq<Press>)
    ensures Replay(count, before + [Reset] + after) == Replay(0, after)
  {
    ReplayConcat(count, before + [Reset], after);
    ReplayConcat(count, before, [Reset]);
  }

  /**
   * The controller of `initializeCounter`: the count, the rendered display and
   * the banner last shown.
   */
  class CounterController {
    var count: int
    var display: string
    var banner: CounterFeedback

    /** The display and the banner always show the current count. */
    ghost predicate Valid()
      reads this
    {
      display == JsText.Decimal(count) && banner == Feedback(count)
    }

    constructor ()
      ensures Valid() && count == 0
    {
      count := 0;
      display := JsText.Decimal(0);
      banner := Feedback(0);
    }

    /** `updateCounter`: re-render the count and pick its banner. */
    method Render()
      modifies this
      ensures Valid() && count == old(count)
    {
      display := JsText.Decimal(count);
      banner := Feedback(count);
    }

    method Increase()
      modifies this
      ensures Valid() && count == old(count) + 1
    {
      count := count + 1;
      Render();
    }

    method Decrease()
      modifies this
      ensures Valid() && count == old(count) - 1
    {
      count := count - 1;
      Render();
    }

    method Reset()
      modifies this
      ensures Valid() && count == 0
    {
      count := 0;
      Render();
    }

    /** Dispatches a button press to its handler. */
    method Handle(press: Press)
      modifies this
      ensures Valid() && count == Step(old(count), press)
    {
      match press
      case Increase => Increase();
      case Decrease => Decrease();
      case Reset => Reset();
    }
  }
}
