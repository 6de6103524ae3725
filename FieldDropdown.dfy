/**
 * The reusable dropdown field: how tall its option list is, whether the list
 * opens above or below the field, and the open/closed state after each
 * handler has finished (the height and opacity animations are not modelled;
 * only the state they leave behind is).
 */
module FieldDropdown {

  /** Height of one option row. */
  const ItemHeight: nat := 44
  /** Tallest the scrolling list may be. */
  const MaxListHeight: nat := 200
  /** Extra height for the list's borders. */
  const BorderAllowance: nat := 8
  /** Room kept free beyond the list when choosing a side. */
  const PlacementMargin: nat := 50

  /** Where the option list is drawn relative to the field. */
  datatype Position = Below | Above

  /**
   * The field's window geometry as `measureInWindow` reports it, or nothing
   * when the container cannot be measured.
   */
  datatype Measurement = Unmeasured | Measured(y: real, height: real)

  /** `calculateDropdownHeight` for a list of `n` options. */
  function DropdownHeight(n: nat): (h: nat)
    ensures BorderAllowance <= h <= MaxListHeight + BorderAllowance
    ensures n <= 4 ==> h == ItemHeight * n + BorderAllowance
    ensures n >= 5 ==> h == MaxListHeight + BorderAllowance
  {
    (if n * ItemHeight <= MaxListHeight then n * ItemHeight else MaxListHeight) + BorderAllowance
  }

  /** More options never make the list shorter. */
  lemma DropdownHeightMonotone(n: nat, m: nat)
    requires n <= m
    ensures DropdownHeight(n) <= DropdownHeight(m)
  {
  }

  /** Free room under the field: `screenHeight - (y + height)`. */
  function SpaceBelow(m: Measurement, screenHeight: real): real
    requires m.Measured?
  {
    screenHeight - (m.y + m.height)
  }

  /**
   * The side `detectDropdownPosition` chooses: above only when the field
   * could be measured, the room below is short of the list height plus the
   * margin, and the room above (`y`) exceeds it; below otherwise.
   */
  function Placement(m: Measurement, screenHeight: real, listHeight: nat): (p: Position)
    ensures m.Unmeasured? ==> p == Below
    ensures m.Measured? && SpaceBelow(m, screenHeight) >= (listHeight + PlacementMargin) as real ==> p == Below
    ensures p == Above ==> m.Measured? && m.y > (listHeight + PlacementMargin) as real
    ensures p == Above <==>
      && m.Measured?
      && SpaceBelow(m, screenHeight) < (listHeight + PlacementMargin) as real
      && m.y > (listHeight + PlacementMargin) as real
  {
    match m
    case Unmeasured => Below
    case Measured(y, height) =>
      var needed := (listHeight + PlacementMargin) as real;
      var spaceBelow := screenHeight - (y + height);
      var spaceAbove := y;
      if spaceBelow < needed && spaceAbove > needed then Above else Below
  }

  /**
   * The dropdown's state: its options (a prop), whether the list is open,
   * the height the list animates to, and the side it opens on.
   */
  class Dropdown {
    const options: seq<string>
    var isOpen: bool
    var listHeight: nat
    var position: Position

    /** The list has its computed height while open and none while closed. */
    ghost predicate Valid()
      reads this
    {
      listHeight == if isOpen then DropdownHeight(|options|) else 0
    }

    constructor (options: seq<string>)
      ensures Valid()
      ensures this.options == options && !isOpen && listHeight == 0 && position == Below
    {
      this.options := options;
      isOpen := false;
      listHeight := 0;
      position := Below;
    }

    /** `closeDropdown`, once its animation has finished. */
    method Close()
      requires Valid()
      modifies this`isOpen, this`listHeight
      ensures Valid() && !isOpen && listHeight == 0
    {
      isOpen := false;
      listHeight := 0;
    }

    /**
     * `toggleDropdown`: an open list closes; a closed one first picks its
     * side from the measurement, then opens at the computed height.
     */
    method Toggle(m: Measurement, screenHeight: real)
      requires Valid()
      modifies this`isOpen, this`listHeight, this`position
      ensures Valid()
      ensures isOpen == !old(isOpen)
      ensures old(isOpen) ==> listHeight == 0 && position == old(position)
      ensures !old(isOpen) ==>
        && listHeight == DropdownHeight(|options|)
        && position == Placement(m, screenHeight, DropdownHeight(|options|))
    {
      if isOpen {
        Close();
      } else {
        position := Placement(m, screenHeight, DropdownHeight(|options|));
        isOpen := true;
        listHeight := DropdownHeight(|options|);
      }
    }

    /**
     * `handleSelect` for the option at `index`: that option is what
     * `onValueChange` receives, and the list then closes.
     */
    method Select(index: nat) returns (reported: string)
      requires Valid() && index < |options|
      modifies this`isOpen, this`listHeight
      ensures Valid() && !isOpen && listHeight == 0
      ensures reported == options[index]
    {
      reported := options[index];
      Close();
    }

    /** `handleOutsidePress`: closes an open list and leaves a closed one alone. */
    method OutsidePress()
      requires Valid()
      modifies this`isOpen, this`listHeight
      ensures Valid() && !isOpen && listHeight == 0
      ensures !old(isOpen) ==> listHeight == old(listHeight)
    {
      if isOpen {
        Close();
      }
    }
  }
}
