/**
 * The FAQ accordion: a fixed list of question/answer items. A click on a
 * question closes every other item and flips the clicked one; Escape closes
 * every open item; Enter on a focused question acts as a click on it.
 */
module Faq {
  import opened Wrappers

  /** The glyph of an item's `.faq-icon`: "+" or the minus sign U+2212. */
  datatype Glyph = Plus | Minus {
    function Text(): string
    {
      match this
      case Plus => "+"
      case Minus => "\U{2212}"
    }
  }

  /**
   * One `.faq-item`: its own `active` class, the `active` class of its
   * `.faq-answer`, and its icon.
   */
  datatype Item = Item(open: bool, answerOpen: bool, icon: Glyph)

  /** An item as the close-every-other branch leaves it. */
  const Closed := Item(false, false, Plus)

  /** The item and its answer show the same state, and the icon agrees with it. */
  predicate Coherent(item: Item)
  {
    item.answerOpen == item.open && (item.icon == Minus <==> item.open)
  }

  /** Toggles the item and its answer, then sets the icon from the item's new state. */
  function Flip(item: Item): Item
  {
    Item(!item.open, !item.answerOpen, if !item.open then Minus else Plus)
  }

  /** The items after a click on question `i`. */
  function AfterClick(items: seq<Item>, i: nat): (r: seq<Item>)
    requires i < |items|
    ensures |r| == |items|
  {
    seq(|items|, j requires 0 <= j < |items| => if j == i then Flip(items[i]) else Closed)
  }

  /** The items after Escape: only the open ones are touched, and they are closed. */
  function AfterEscape(items: seq<Item>): (r: seq<Item>)
    ensures |r| == |items|
  {
    seq(|items|, j requires 0 <= j < |items| => if items[j].open then Closed else items[j])
  }

  /** The items after a key press; `focused` is the question the key was pressed on, if any. */
  function AfterKey(items: seq<Item>, key: string, focused: Option<nat>): seq<Item>
    requires focused.Some? ==> focused.value < |items|
  {
    var escaped := if key == "Escape" then AfterEscape(items) else items;
    if key == "Enter" && focused.Some? then AfterClick(escaped, focused.value) else escaped
  }

  /** The number of open items. */
  function OpenCount(items: seq<Item>): nat
  {
    if items == [] then 0 else (if items[0].open then 1 else 0) + OpenCount(items[1..])
  }

  /** No item is open exactly when the open count is zero. */
  lemma {:induction false} OpenCountZero(items: seq<Item>)
    ensures OpenCount(items) == 0 <==> forall j :: 0 <= j < |items| ==> !items[j].open
  {
    if items != [] {
      OpenCountZero(items[1..]);
      assert forall j :: 1 <= j < |items| ==> items[j] == items[1..][j - 1];
    }
  }

  /** When only item `i` may be open, the open count is 1 or 0 according to item `i`. */
  lemma {:induction false} OpenCountOnly(items: seq<Item>, i: nat)
    requires i < |items|
    requires forall j :: 0 <= j < |items| && j != i ==> !items[j].open
    ensures OpenCount(items) == if items[i].open then 1 else 0
  {
    assert forall j :: 1 <= j < |items| ==> items[j] == items[1..][j - 1];
    if i == 0 {
      OpenCountZero(items[1..]);
    } else {
      OpenCountOnly(items[1..], i - 1);
    }
  }

  /** Two distinct open items make the open count at least 2. */
  lemma {:induction false} TwoOpen(items: seq<Item>, a: nat, b: nat)
    requires a < b < |items| && items[a].open && items[b].open
    ensures OpenCount(items) >= 2
  {
    assert forall j :: 1 <= j < |items| ==> items[j] == items[1..][j - 1];
    if a == 0 {
      OneOpen(items[1..], b - 1);
    } else {
      TwoOpen(items[1..], a - 1, b - 1);
    }
  }

  lemma {:induction false} OneOpen(items: seq<Item>, a: nat)
    requires a < |items| && items[a].open
    ensures OpenCount(items) >= 1
  {
    if a > 0 {
      assert items[1..][a - 1] == items[a];
      OneOpen(items[1..], a - 1);
    }
  }

  /**
   * A click on question `i` closes every other item with a "+" icon, flips item
   * `i`, gives it the "−" icon exactly when it is now open, and leaves one open
   * item if `i` was closed and none if it was open.
   */
  lemma ClickLeavesAtMostOne(items: seq<Item>, i: nat)
    requires i < |items|
    ensures var r := AfterClick(items, i);
            && (forall j :: 0 <= j < |items| && j != i ==> r[j] == Closed)
            && r[i].open == !items[i].open
            && (r[i].icon == Minus <==> r[i].open)
            && OpenCount(r) == if items[i].open then 0 else 1
  {
    OpenCountOnly(AfterClick(items, i), i);
  }

  /** With at most one item open, opening item `b` while item `a` is open closes `a` and opens `b`. */
  lemma ClickSwitchesOpenItem(items: seq<Item>, a: nat, b: nat)
    requires a < |items| && b < |items| && a != b
    requires OpenCount(items) <= 1 && items[a].open
    ensures !AfterClick(items, b)[a].open && AfterClick(items, b)[b].open
  {
    if items[b].open {
      if a < b { TwoOpen(items, a, b); } else { TwoOpen(items, b, a); }
    }
  }

  /** Clicking the only open item closes it and leaves no item open. */
  lemma ClickOnOpenItemClosesAll(items: seq<Item>, i: nat)
    requires i < |items| && items[i].open
    ensures OpenCount(AfterClick(items, i)) == 0
    ensures forall j :: 0 <= j < |items| ==> !AfterClick(items, i)[j].open
  {
    ClickLeavesAtMostOne(items, i);
    OpenCountZero(AfterClick(items, i));
  }

  /** A click keeps every item coherent. */
  lemma ClickKeepsCoherence(items: seq<Item>, i: nat)
    requires i < |items|
    requires forall j :: 0 <= j < |items| ==> Coherent(items[j])
    ensures forall j :: 0 <= j < |items| ==> Coherent(AfterClick(items, i)[j])
  {
    assert Coherent(items[i]);
  }

  /**
   * Escape leaves no item open; from coherent items it leaves every item closed
   * with a "+" icon, whatever was open before.
   */
  lemma EscapeClosesAll(items: seq<Item>)
    ensures OpenCount(AfterEscape(items)) == 0
    ensures (forall j :: 0 <= j < |items| ==> Coherent(items[j])) ==>
              forall j :: 0 <= j < |items| ==> AfterEscape(items)[j] == Closed
  {
    OpenCountZero(AfterEscape(items));
  }

  /** A key other than Escape and Enter changes nothing. */
  lemma OtherKeysChangeNothing(items: seq<Item>, key: string, focused: Option<nat>)
    requires focused.Some? ==> focused.value < |items|
    requires key != "Escape" && key != "Enter"
    ensures AfterKey(items, key, focused) == items
  {
  }

  /** The accordion of `initializeFAQ`, over the fixed list of `.faq-item` elements. */
  class Accordion {
    const items: array<Item>

    /** The items as the markup presents them; `initializeFAQ` sets no item state of its own. */
    constructor (markup: seq<Item>)
      ensures fresh(items) && items[..] == markup
    {
      items := new Item[|markup|](j requires 0 <= j < |markup| => markup[j]);
    }

    /** The delegated click handler; `question` is the clicked question, `None` for a click elsewhere in the list. */
    method Click(question: Option<nat>)
      requires question.Some? ==> question.value < items.Length
      modifies items
      ensures question.None? ==> items[..] == old(items[..])
      ensures question.Some? ==> items[..] == AfterClick(old(items[..]), question.value)
      ensures question.Some? ==> OpenCount(items[..]) <= 1
    {
      if question.Some? {
        var i := question.value;
        for j := 0 to items.Length
          invariant forall k :: 0 <= k < j && k != i ==> items[k] == Closed
          invariant forall k :: 0 <= k < items.Length && (j <= k || k == i) ==> items[k] == old(items[k])
        {
          if j != i {
            items[j] := Closed;
          }
        }
        items[i] := Flip(items[i]);
        assert items[..] == AfterClick(old(items[..]), i);
        ClickLeavesAtMostOne(old(items[..]), i);
      }
    }

    /** The Escape branch of the key handler: close every item that is open. */
    method Escape()
      modifies items
      ensures items[..] == AfterEscape(old(items[..]))
      ensures OpenCount(items[..]) == 0
    {
      for j := 0 to items.Length
        invariant forall k :: 0 <= k < j ==> items[k] == if old(items[k]).open then Closed else old(items[k])
        invariant forall k :: j <= k < items.Length ==> items[k] == old(items[k])
      {
        if items[j].open {
          items[j] := Closed;
        }
      }
      assert items[..] == AfterEscape(old(items[..]));
      EscapeClosesAll(old(items[..]));
    }

    /** The document key handler; `focused` is the question the key was pressed on, if any. */
    method KeyDown(key: string, focused: Option<nat>)
      requires focused.Some? ==> focused.value < items.Length
      modifies items
      ensures items[..] == AfterKey(old(items[..]), key, focused)
      ensures key == "Enter" && focused.Some? ==> OpenCount(items[..]) <= 1
    {
      if key == "Escape" {
        Escape();
      }
      if key == "Enter" && focused.Some? {
        Click(focused);
      }
    }
  }
}
