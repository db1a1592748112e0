/** The title menu of src/mainMenu.cpp: three labelled items, one of them
    highlighted green, and a selection index moved by the up and down keys. */
module MainMenu {

  /** MAX_ITEMS. */
  const MaxItems: nat := 3

  const Labels: seq<string> := ["Start Game", "Options", "Exit"]

  /** The index moveUp leaves selected: one higher, unless at the top. */
  function UpIndex(i: int): int
  {
    if i > 0 then i - 1 else i
  }

  /** The index moveDown leaves selected among `n` items: one lower, unless
      at the bottom. */
  function DownIndex(i: int, n: int): int
  {
    if i < n - 1 then i + 1 else i
  }

  /** Up undoes down and down undoes up, away from the ends, and both keep
      a valid index valid. */
  lemma UpDownInverse(i: int)
    requires 0 <= i < MaxItems
    ensures 0 <= UpIndex(i) < MaxItems && 0 <= DownIndex(i, MaxItems) < MaxItems
    ensures i < MaxItems - 1 ==> UpIndex(DownIndex(i, MaxItems)) == i
    ensures i > 0 ==> DownIndex(UpIndex(i), MaxItems) == i
  {
  }

  /** `k` presses of the up key. */
  function UpTimes(i: int, k: nat): int
  {
    if k == 0 then i else UpIndex(UpTimes(i, k - 1))
  }

  /** Pressing up `k` times moves `k` items up, stopping at the top item. */
  lemma {:induction false} UpTimesStopsAtTop(i: int, k: nat)
    requires 0 <= i
    ensures UpTimes(i, k) == if i >= k then i - k else 0
  {
    if k > 0 {
      UpTimesStopsAtTop(i, k - 1);
    }
  }

  class Menu {
    var selectedItemIndex: int
    /** The label of each item and whether it is drawn green. */
    var labels: seq<string>
    var green: seq<bool>

    /** MAX_ITEMS items, a valid index, and exactly the item at that index
        green. */
    predicate Valid()
      reads this
    {
      |labels| == MaxItems && |green| == MaxItems && 0 <= selectedItemIndex < MaxItems &&
      forall j | 0 <= j < MaxItems :: green[j] <==> j == selectedItemIndex
    }

    /** Menu(width, height): the three labels in order, the first one
        selected and green. */
    constructor()
      ensures Valid() && selectedItemIndex == 0 && labels == Labels
    {
      var ls: seq<string> := [];
      var gs: seq<bool> := [];
      for i := 0 to MaxItems
        invariant ls == Labels[..i] && |gs| == i
        invariant forall j | 0 <= j < i :: gs[j] <==> j == 0
      {
        ls := ls + [Labels[i]];
        gs := gs + [i == 0];
      }
      labels := ls;
      green := gs;
      selectedItemIndex := 0;
    }

    method MoveUp()
      requires Valid()
      modifies this
      ensures Valid() && selectedItemIndex == UpIndex(old(selectedItemIndex)) && labels == old(labels)
    {
      if selectedItemIndex > 0 {
        green := green[selectedItemIndex := false];
        selectedItemIndex := selectedItemIndex - 1;
        green := green[selectedItemIndex := true];
      }
    }

    method MoveDown()
      requires Valid()
      modifies this
      ensures Valid() && selectedItemIndex == DownIndex(old(selectedItemIndex), MaxItems) && labels == old(labels)
    {
      if selectedItemIndex < |labels| - 1 {
        green := green[selectedItemIndex := false];
        selectedItemIndex := selectedItemIndex + 1;
        green := green[selectedItemIndex := true];
      }
    }

    /** getSelectedIndex: always the index of an item, and the green one. */
    function GetSelectedIndex(): (i: int)
      requires Valid()
      reads this
      ensures 0 <= i < MaxItems && green[i]
      ensures forall j | 0 <= j < MaxItems && green[j] :: j == i
    {
      selectedItemIndex
    }
  }
}
