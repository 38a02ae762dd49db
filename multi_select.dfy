/**
 * The member picker of the group form (src/components/ui/CustomeMultiSelect.tsx):
 * clicking an option toggles its id in the selected list, and the button
 * toggles whether the option list is open.
 */
module MultiSelect {
  import opened Js

  /** The test `id !== value` of the removing filter. */
  function Unequal(value: int): int -> bool
  {
    x => x != value
  }

  /**
   * `handleSelect`: a selected value is removed (every copy of it), an
   * unselected one is appended at the end.
   */
  function HandleSelect(selected: seq<int>, value: int): (r: seq<int>)
    ensures value in selected ==> forall x :: x in r <==> x in selected && x != value
    ensures value !in selected ==> r == selected + [value]
  {
    if value in selected then Filter(selected, Unequal(value)) else selected + [value]
  }

  /** `toggleDropdown`. */
  function ToggleDropdown(isOpen: bool): (r: bool)
    ensures r != isOpen
  {
    !isOpen
  }

  /** A toggle flips the membership of the toggled value and of no other value. */
  lemma ToggleFlipsOnlyValue(selected: seq<int>, value: int, other: int)
    ensures value in HandleSelect(selected, value) <==> value !in selected
    ensures other != value ==> (other in HandleSelect(selected, value) <==> other in selected)
  {
  }

  /**
   * Removing a present value keeps every other value: each with all its
   * copies, in the original order.
   */
  lemma RemovalKeepsOthers(selected: seq<int>, value: int)
    requires value in selected
    ensures Sublist(HandleSelect(selected, value), selected)
    ensures forall x :: multiset(HandleSelect(selected, value))[x] == if x == value then 0 else multiset(selected)[x]
  {
    FilterSublist(selected, Unequal(value));
    forall x
      ensures multiset(HandleSelect(selected, value))[x] == if x == value then 0 else multiset(selected)[x]
    {
      FilterCount(selected, Unequal(value), x);
    }
  }

  /** Selecting an unselected value and then clicking it again gives back the original list. */
  lemma SelectThenDeselect(selected: seq<int>, value: int)
    requires value !in selected
    ensures HandleSelect(HandleSelect(selected, value), value) == selected
  {
    FilterConcat(selected, [value], Unequal(value));
    FilterAll(selected, Unequal(value));
    assert Filter([value], Unequal(value)) == [];
  }

  /** Clicking a selected value twice does not restore the list: the value moves to the end. */
  lemma DeselectThenSelect(selected: seq<int>, value: int)
    requires value in selected
    ensures HandleSelect(HandleSelect(selected, value), value)
       == Filter(selected, Unequal(value)) + [value]
  {
  }
}
