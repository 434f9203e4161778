/*
 * VariableSelector: one choice box per selectable dimension, the initial choice of a
 * combination that has an image, the repopulation of the boxes after every change,
 * and the "Switch to last" button.
 *
 * A choice box is its offered items and its selected value (None for Java's null).
 * A JavaFX value listener fires only when the value really changes, so `SetValue`
 * runs the listener of the source only then. The file system is the `fileExists`
 * snapshot passed to each operation.
 */
module Selector {
  import opened Wrappers
  import opened Dimensions
  import opened Config
  import opened PathManager
  import opened Controller
  import opened Combinations

  datatype Box = Box(items: seq<string>, value: Option<string>)

  /** Some value of the non-selectable dimension gives an existing file for `selected`. */
  predicate HasImage(ctrl: ImageController, nonSelectable: seq<string>, selected: seq<string>,
                     fileExists: string -> bool)
  {
    exists k :: 0 <= k < |nonSelectable|
      && ControllerPath(ctrl.config, ctrl.pathManager.config, nonSelectable[k], selected, fileExists).Some?
  }

  /** The index of the first combination with an image, if any. */
  function FirstWithImage(ctrl: ImageController, nonSelectable: seq<string>, combos: seq<Combination>,
                          fileExists: string -> bool): (r: Option<nat>)
    ensures r.Some? ==> r.value < |combos| && HasImage(ctrl, nonSelectable, combos[r.value], fileExists)
    ensures r.Some? ==> forall j :: 0 <= j < r.value ==> !HasImage(ctrl, nonSelectable, combos[j], fileExists)
    ensures r.None? <==> forall j :: 0 <= j < |combos| ==> !HasImage(ctrl, nonSelectable, combos[j], fileExists)
  {
    if |combos| == 0 then None
    else if HasImage(ctrl, nonSelectable, combos[0], fileExists) then Some(0)
    else
      var rest := FirstWithImage(ctrl, nonSelectable, combos[1..], fileExists);
      if rest.None? then None else Some(rest.value + 1)
  }

  /** The box values: one per box, in order. */
  function Values(boxes: seq<Box>): (r: seq<Option<string>>)
    ensures |r| == |boxes| && forall i :: 0 <= i < |boxes| ==> r[i] == boxes[i].value
  {
    seq(|boxes|, i requires 0 <= i < |boxes| => boxes[i].value)
  }

  predicate AllSelected(boxes: seq<Box>)
  {
    forall i :: 0 <= i < |boxes| ==> boxes[i].value.Some?
  }

  /** getSelectedValues, once every box holds a value. */
  function Selection(boxes: seq<Box>): (r: seq<string>)
    requires AllSelected(boxes)
    ensures |r| == |boxes| && forall i :: 0 <= i < |boxes| ==> Some(r[i]) == boxes[i].value
  {
    seq(|boxes|, i requires 0 <= i < |boxes| && AllSelected(boxes) => boxes[i].value.value)
  }

  /**
   * The items offered for box i: those of `values`, in order and with repeats, that
   * have an image when put in slot i of `selected`.
   */
  function Offered(ctrl: ImageController, nonSelectable: seq<string>, values: seq<string>, i: nat,
                   selected: seq<string>, fileExists: string -> bool): seq<string>
    requires i < |selected|
  {
    if |values| == 0 then []
    else
      Offered(ctrl, nonSelectable, values[..|values| - 1], i, selected, fileExists)
      + (if HasImage(ctrl, nonSelectable, selected[i := values[|values| - 1]], fileExists)
         then [values[|values| - 1]] else [])
  }

  /** The boxes after repopulateChoices: items recomputed from the full value lists, values kept. */
  function Repopulated(ctrl: ImageController, nonSelectable: seq<string>, selectable: seq<Dimension>,
                       boxes: seq<Box>, fileExists: string -> bool): (r: seq<Box>)
    requires |boxes| == |selectable| && AllSelected(boxes)
    ensures |r| == |boxes| && Values(r) == Values(boxes)
  {
    seq(|boxes|, i requires 0 <= i < |boxes| && |boxes| == |selectable| && AllSelected(boxes) =>
      Box(Offered(ctrl, nonSelectable, selectable[i].values, i, Selection(boxes), fileExists), boxes[i].value))
  }

  /** The boxes with box i set to v. */
  function WithValue(boxes: seq<Box>, i: nat, v: string): (r: seq<Box>)
    requires i < |boxes|
    ensures |r| == |boxes| && r[i].value == Some(v) && r[i].items == boxes[i].items
    ensures forall j :: 0 <= j < |boxes| && j != i ==> r[j] == boxes[j]
  {
    boxes[i := boxes[i].(value := Some(v))]
  }

  // ---------------------------------------------------------------------------
  // Properties of the offered items
  // ---------------------------------------------------------------------------

  /** A value is offered exactly when it is one of the dimension's values and has an image. */
  lemma {:induction false} OfferedMember(ctrl: ImageController, nonSelectable: seq<string>, values: seq<string>,
                                         i: nat, selected: seq<string>, fileExists: string -> bool, v: string)
    requires i < |selected|
    ensures v in Offered(ctrl, nonSelectable, values, i, selected, fileExists)
            <==> v in values && HasImage(ctrl, nonSelectable, selected[i := v], fileExists)
    decreases |values|
  {
    if |values| > 0 {
      var init := values[..|values| - 1];
      OfferedMember(ctrl, nonSelectable, init, i, selected, fileExists, v);
      assert values == init + [values[|values| - 1]];
    }
  }

  /** Nothing is dropped when every value has an image. */
  lemma {:induction false} OfferedAll(ctrl: ImageController, nonSelectable: seq<string>, values: seq<string>,
                                      i: nat, selected: seq<string>, fileExists: string -> bool)
    requires i < |selected|
    requires forall k :: 0 <= k < |values| ==> HasImage(ctrl, nonSelectable, selected[i := values[k]], fileExists)
    ensures Offered(ctrl, nonSelectable, values, i, selected, fileExists) == values
    decreases |values|
  {
    if |values| > 0 {
      var init := values[..|values| - 1];
      OfferedAll(ctrl, nonSelectable, init, i, selected, fileExists);
      assert values == init + [values[|values| - 1]];
    }
  }

  /** Never more items than the dimension has values. */
  lemma {:induction false} OfferedLength(ctrl: ImageController, nonSelectable: seq<string>, values: seq<string>,
                                         i: nat, selected: seq<string>, fileExists: string -> bool)
    requires i < |selected|
    ensures |Offered(ctrl, nonSelectable, values, i, selected, fileExists)| <= |values|
    decreases |values|
  {
    if |values| > 0 {
      OfferedLength(ctrl, nonSelectable, values[..|values| - 1], i, selected, fileExists);
    }
  }

  /** Repopulating again, with the same selections and files, changes nothing. */
  lemma {:induction false} RepopulateIdempotent(ctrl: ImageController, nonSelectable: seq<string>, selectable: seq<Dimension>,
                             boxes: seq<Box>, fileExists: string -> bool)
    requires |boxes| == |selectable| && AllSelected(boxes)
    ensures AllSelected(Repopulated(ctrl, nonSelectable, selectable, boxes, fileExists))
    ensures Repopulated(ctrl, nonSelectable, selectable, Repopulated(ctrl, nonSelectable, selectable, boxes, fileExists), fileExists)
         == Repopulated(ctrl, nonSelectable, selectable, boxes, fileExists)
  {
    var r := Repopulated(ctrl, nonSelectable, selectable, boxes, fileExists);
    assert forall i :: 0 <= i < |r| ==> r[i].value == Values(r)[i] == Values(boxes)[i] == boxes[i].value;
    assert Selection(r) == Selection(boxes);
  }

  /**
   * When the current selection has an image, repopulation keeps every current value on
   * offer in its own box.
   */
  lemma {:induction false} CurrentStaysOffered(ctrl: ImageController, nonSelectable: seq<string>, selectable: seq<Dimension>,
                            boxes: seq<Box>, fileExists: string -> bool, i: nat)
    requires |boxes| == |selectable| && AllSelected(boxes) && i < |boxes|
    requires boxes[i].value.value in selectable[i].values
    requires HasImage(ctrl, nonSelectable, Selection(boxes), fileExists)
    ensures boxes[i].value.value in Repopulated(ctrl, nonSelectable, selectable, boxes, fileExists)[i].items
  {
    var sel := Selection(boxes);
    assert sel[i := sel[i]] == sel;
    OfferedMember(ctrl, nonSelectable, selectable[i].values, i, sel, fileExists, sel[i]);
  }

  /** The selection the constructor makes: the first combination with an image, or none. */
  function InitialValues(ctrl: ImageController, nonSelectable: seq<string>, selectable: seq<Dimension>,
                         fileExists: string -> bool): (r: seq<Option<string>>)
    ensures |r| == |selectable|
  {
    var combos := Combinations.Combinations(selectable);
    match FirstWithImage(ctrl, nonSelectable, combos, fileExists)
    case None => seq(|selectable|, i => None)
    case Some(k) =>
      CombinationMember(selectable, combos[k]);
      seq(|selectable|, i requires 0 <= i < |selectable| => Some(combos[k][i]))
  }

  /**
   * The initial selection is a combination of the selectable values that has an image,
   * whenever any combination has one; otherwise every box stays empty.
   */
  lemma {:induction false} InitialSelection(ctrl: ImageController, nonSelectable: seq<string>, selectable: seq<Dimension>,
                         fileExists: string -> bool)
    ensures var r := InitialValues(ctrl, nonSelectable, selectable, fileExists);
            (exists u :: u in Combinations.Combinations(selectable) && HasImage(ctrl, nonSelectable, u, fileExists))
            <==> (|r| > 0 && forall i :: 0 <= i < |r| ==> r[i].Some?)
    ensures var r := InitialValues(ctrl, nonSelectable, selectable, fileExists);
            |r| > 0 && r[0].Some? ==>
              (forall i :: 0 <= i < |r| ==> r[i].Some? && r[i].value in selectable[i].values)
              && HasImage(ctrl, nonSelectable, seq(|r|, i requires 0 <= i < |r| && r[i].Some? => r[i].value), fileExists)
  {
    var combos := Combinations.Combinations(selectable);
    var r := InitialValues(ctrl, nonSelectable, selectable, fileExists);
    var first := FirstWithImage(ctrl, nonSelectable, combos, fileExists);
    if first.Some? {
      var u := combos[first.value];
      CombinationMember(selectable, u);
      assert |selectable| > 0;
      assert seq(|r|, i requires 0 <= i < |r| && r[i].Some? => r[i].value) == u;
    } else {
      if |r| > 0 {
        assert r[0].None?;
      }
      forall u | u in Combinations.Combinations(selectable)
        ensures !HasImage(ctrl, nonSelectable, u, fileExists)
      {
        var k :| 0 <= k < |combos| && combos[k] == u;
      }
    }
  }

  class VariableSelector {
    const controller: ImageController
    const selectable: seq<Dimension>
    const nonSelectable: Dimension
    const boxes: array<Box>
    var lastChanged: Option<nat>
    var lastChoice: Option<string>
    var disableImageSelection: bool
    var toggleDisabled: bool

    /** Between events: one box per selectable dimension, selection enabled, toggle consistent. */
    predicate Valid()
      reads this, boxes
    {
      && boxes.Length == |selectable|
      && selectable == VariableDimensions(controller.pathManager.config.dimensions, controller.pathManager.config.plotByField)
      && controller.config.plotByFieldIndex < |controller.config.dimensions|
      && nonSelectable == controller.config.dimensions[controller.config.plotByFieldIndex]
      && !disableImageSelection
      && (lastChanged.Some? ==> lastChanged.value < boxes.Length)
      && (!toggleDisabled ==> lastChanged.Some?)
    }

    /**
     * One box per selectable dimension, offering all its values; then the first
     * combination with an image is written into the boxes with the listener suppressed.
     */
    constructor(controller: ImageController, fileExists: string -> bool)
      requires controller.config.plotByFieldIndex < |controller.config.dimensions|
      ensures Valid() && fresh(boxes) && this.controller == controller
      ensures lastChanged == None && lastChoice == None && toggleDisabled
      ensures forall i :: 0 <= i < boxes.Length ==> boxes[i].items == selectable[i].values
      ensures Values(boxes[..]) == InitialValues(controller, nonSelectable.values, selectable, fileExists)
    {
      this.controller := controller;
      var dims := controller.GetSelectableDimensions();
      var nonSel := controller.GetNonSelectableDimension();
      selectable := dims;
      nonSelectable := nonSel.value;
      boxes := new Box[|dims|](i requires 0 <= i < |dims| => Box(dims[i].values, None));
      lastChanged := None;
      lastChoice := None;
      disableImageSelection := true;
      toggleDisabled := true;
      new;
      InitialSelect(fileExists);
      disableImageSelection := false;
    }

    /**
     * The constructor's search: the first combination with an image is written into the
     * boxes (the listener is suppressed), or the boxes stay empty.
     */
    method InitialSelect(fileExists: string -> bool)
      requires boxes.Length == |selectable|
      requires forall i :: 0 <= i < boxes.Length ==> boxes[i] == Box(selectable[i].values, None)
      modifies boxes
      ensures forall i :: 0 <= i < boxes.Length ==> boxes[i].items == selectable[i].values
      ensures Values(boxes[..]) == InitialValues(controller, nonSelectable.values, selectable, fileExists)
    {
      var allCombinations := AllCoordCombinations(selectable);
      var valid := false;
      var n := 0;
      while n < |allCombinations|
        invariant 0 <= n <= |allCombinations|
        invariant forall j :: 0 <= j < n ==> !HasImage(controller, nonSelectable.values, allCombinations[j], fileExists)
        invariant forall i :: 0 <= i < boxes.Length ==> boxes[i] == Box(selectable[i].values, None)
      {
        var c := allCombinations[n];
        valid := AnyImage(c, fileExists);
        if valid {
          CombinationMember(selectable, c);
          WriteCombination(c);
          FirstIsIndex(controller, nonSelectable.values, allCombinations, fileExists, n);
          return;
        }
        n := n + 1;
      }
      assert FirstWithImage(controller, nonSelectable.values, allCombinations, fileExists).None?;
    }

    /** setValue(c[i]) on every box, in order. */
    method WriteCombination(c: Combination)
      requires |c| == boxes.Length
      modifies boxes
      ensures forall k :: 0 <= k < boxes.Length ==> boxes[k] == Box(old(boxes[k].items), Some(c[k]))
    {
      var i := 0;
      while i < |c|
        invariant 0 <= i <= |c|
        invariant forall k :: 0 <= k < i ==> boxes[k] == Box(old(boxes[k].items), Some(c[k]))
        invariant forall k :: i <= k < boxes.Length ==> boxes[k] == old(boxes[k])
      {
        boxes[i] := boxes[i].(value := Some(c[i]));
        i := i + 1;
      }
    }

    /** allCoordCombinations: works on its own copy of the list, so the caller's is untouched. */
    static method AllCoordCombinations(dimensions: seq<Dimension>) returns (combos: seq<Combination>)
      ensures combos == Combinations.Combinations(dimensions)
    {
      var dims := dimensions;
      if |dims| == 0 {
        return [];
      }
      var firstDimension := dims[0];
      dims := dims[1..];
      var coordCombination: seq<Combination> := [];
      var k := 0;
      while k < |firstDimension.values|
        invariant 0 <= k <= |firstDimension.values|
        invariant coordCombination == Singles(firstDimension.values[..k])
      {
        coordCombination := coordCombination + [[firstDimension.values[k]]];
        k := k + 1;
      }
      assert firstDimension.values[..k] == firstDimension.values;
      combos := CoordCombinationsHelper(dims, coordCombination);
    }

    /** coordCombinationsHelper: every combination extended by every value of the next dimension. */
    static method CoordCombinationsHelper(remainingDimensions: seq<Dimension>, coordCombinations: seq<Combination>)
      returns (combos: seq<Combination>)
      ensures combos == CombinationsHelper(remainingDimensions, coordCombinations)
      decreases |remainingDimensions|
    {
      if |remainingDimensions| == 0 {
        return coordCombinations;
      }
      var myFirstList := remainingDimensions[0];
      var values := myFirstList.values;
      var newCombinations: seq<Combination> := [];
      var a := 0;
      while a < |coordCombinations|
        invariant 0 <= a <= |coordCombinations|
        invariant newCombinations == Cross(coordCombinations[..a], Singles(values))
      {
        var s := coordCombinations[a];
        ghost var before := newCombinations;
        var b := 0;
        while b < |values|
          invariant 0 <= b <= |values|
          invariant newCombinations == before + Row(s, Singles(values[..b]))
        {
          assert Singles(values[..b + 1]) == Singles(values[..b]) + [[values[b]]];
          RowConcat(s, Singles(values[..b]), [[values[b]]]);
          newCombinations := newCombinations + [s + [values[b]]];
          b := b + 1;
        }
        assert values[..b] == values;
        CrossSnoc(coordCombinations[..a], s, Singles(values));
        assert coordCombinations[..a + 1] == coordCombinations[..a] + [s];
        a := a + 1;
      }
      assert coordCombinations[..a] == coordCombinations;
      combos := CoordCombinationsHelper(remainingDimensions[1..], newCombinations);
    }

    /** The inner loop shared by the constructor and repopulateChoices: stop at the first image found. */
    method AnyImage(selected: seq<string>, fileExists: string -> bool) returns (found: bool)
      ensures found == HasImage(controller, nonSelectable.values, selected, fileExists)
    {
      found := false;
      var values := nonSelectable.values;
      var k := 0;
      while k < |values|
        invariant 0 <= k <= |values|
        invariant forall j :: 0 <= j < k ==>
                    ControllerPath(controller.config, controller.pathManager.config, values[j], selected, fileExists).None?
      {
        var path := controller.GetPath(values[k], selected, fileExists);
        if path.Some? {
          found := true;
          break;
        }
        k := k + 1;
      }
    }

    /** getSelectedValues: the value of each box, in order. */
    method GetSelectedValues() returns (selected: seq<Option<string>>)
      ensures selected == Values(boxes[..])
    {
      selected := [];
      var i := 0;
      while i < boxes.Length
        invariant 0 <= i <= boxes.Length
        invariant selected == Values(boxes[..i])
      {
        selected := selected + [boxes[i].value];
        i := i + 1;
      }
      assert boxes[..i] == boxes[..];
    }

    /** selectImageSet: the controller shows the selection, then (unless it threw) the boxes are repopulated. */
    method SelectImageSet(fileExists: string -> bool) returns (status: Status)
      requires Valid() && AllSelected(boxes[..])
      modifies this, boxes, controller
      ensures Valid()
      ensures status == SelectStatus(controller.config, Selection(old(boxes[..])), old(controller.views))
      ensures controller.views == SelectViews(controller.config, controller.pathManager.config,
                                              Selection(old(boxes[..])), old(controller.views), fileExists)
      ensures boxes[..] == if status == Done then Repopulated(controller, nonSelectable.values, selectable, old(boxes[..]), fileExists)
                           else old(boxes[..])
      ensures lastChanged == old(lastChanged) && lastChoice == old(lastChoice) && toggleDisabled == old(toggleDisabled)
    {
      var selected := GetSelectedValues();
      assert selected == Values(boxes[..]);
      status := controller.SelectImageSet(Selection(boxes[..]), fileExists);
      if status == Done {
        Repopulate(fileExists);
      }
    }

    /**
     * repopulateChoices: each box offers the values of its dimension that have an image
     * with the other selections held fixed; its selected value is restored with the
     * listener suppressed.
     */
    method Repopulate(fileExists: string -> bool)
      requires Valid() && AllSelected(boxes[..])
      modifies this, boxes
      ensures Valid()
      ensures boxes[..] == Repopulated(controller, nonSelectable.values, selectable, old(boxes[..]), fileExists)
      ensures lastChanged == old(lastChanged) && lastChoice == old(lastChoice) && toggleDisabled == old(toggleDisabled)
    {
      ghost var start := boxes[..];
      ghost var target := Repopulated(controller, nonSelectable.values, selectable, start, fileExists);
      ghost var sel := Selection(start);
      var i := 0;
      while i < |selectable|
        invariant 0 <= i <= |selectable| == boxes.Length
        invariant Valid() && lastChanged == old(lastChanged) && lastChoice == old(lastChoice)
        invariant toggleDisabled == old(toggleDisabled)
        invariant forall k :: 0 <= k < i ==> boxes[k] == target[k]
        invariant forall k :: i <= k < boxes.Length ==> boxes[k] == start[k]
        invariant forall k :: 0 <= k < boxes.Length ==> boxes[k].value == start[k].value
      {
        var currentValue := boxes[i].value;
        assert Selection(boxes[..]) == sel;
        var newValues := OfferedFor(i, fileExists);
        disableImageSelection := true;
        boxes[i] := Box(newValues, currentValue);
        disableImageSelection := false;
        i := i + 1;
      }
      assert boxes[..] == target;
    }

    /** The inner loops of repopulateChoices for box i: the values of its dimension that have an image. */
    method OfferedFor(i: nat, fileExists: string -> bool) returns (newValues: seq<string>)
      requires boxes.Length == |selectable| && i < boxes.Length && AllSelected(boxes[..])
      ensures newValues == Offered(controller, nonSelectable.values, selectable[i].values, i, Selection(boxes[..]), fileExists)
    {
      var dimension := selectable[i];
      newValues := [];
      var j := 0;
      while j < |dimension.values|
        invariant 0 <= j <= |dimension.values|
        invariant newValues == Offered(controller, nonSelectable.values, dimension.values[..j], i, Selection(boxes[..]), fileExists)
      {
        var value := dimension.values[j];
        var selectedValues := Selection(boxes[..])[i := value];
        var found := AnyImage(selectedValues, fileExists);
        assert dimension.values[..j + 1][..j] == dimension.values[..j];
        if found {
          newValues := newValues + [value];
        }
        j := j + 1;
      }
      assert dimension.values[..j] == dimension.values;
    }

    /**
     * ChoiceBox.setValue, with the listener: a real change records the box and its old
     * value, enables the toggle when the old value was not null, and selects images.
     */
    method SetValue(i: nat, v: string, fileExists: string -> bool) returns (status: Option<Status>)
      requires Valid() && i < boxes.Length
      requires boxes[i].value != Some(v) ==> forall j :: 0 <= j < boxes.Length && j != i ==> boxes[j].value.Some?
      modifies this, boxes, controller
      ensures Valid()
      ensures old(boxes[i].value) == Some(v) ==>
                status == None && boxes[..] == old(boxes[..]) && controller.views == old(controller.views)
                && lastChanged == old(lastChanged) && lastChoice == old(lastChoice) && toggleDisabled == old(toggleDisabled)
      ensures old(boxes[i].value) != Some(v) ==>
                && lastChanged == Some(i) && lastChoice == old(boxes[i].value)
                && toggleDisabled == (old(toggleDisabled) && old(boxes[i].value).None?)
                && AllSelected(WithValue(old(boxes[..]), i, v))
                && status == Some(SelectStatus(controller.config, Selection(WithValue(old(boxes[..]), i, v)), old(controller.views)))
                && controller.views == SelectViews(controller.config, controller.pathManager.config,
                                                   Selection(WithValue(old(boxes[..]), i, v)), old(controller.views), fileExists)
                && boxes[..] == if status == Some(Done)
                                then Repopulated(controller, nonSelectable.values, selectable, WithValue(old(boxes[..]), i, v), fileExists)
                                else WithValue(old(boxes[..]), i, v)
    {
      var oldValue := boxes[i].value;
      if oldValue == Some(v) {
        return None;
      }
      boxes[i] := boxes[i].(value := Some(v));
      assert boxes[..] == WithValue(old(boxes[..]), i, v);
      if !disableImageSelection {
        lastChanged := Some(i);
        lastChoice := oldValue;
        if lastChoice.Some? {
          toggleDisabled := false;
        }
        var s := SelectImageSet(fileExists);
        status := Some(s);
      }
    }

    /**
     * The user picks `v` in box i: the listener runs as for `SetValue`, so a real change
     * records the box, enables the toggle, shows the new image set and repopulates.
     */
    method UserSelect(i: nat, v: string, fileExists: string -> bool) returns (status: Option<Status>)
      requires Valid() && i < boxes.Length && v in boxes[i].items
      requires boxes[i].value != Some(v) ==> forall j :: 0 <= j < boxes.Length && j != i ==> boxes[j].value.Some?
      modifies this, boxes, controller
      ensures Valid()
      ensures old(boxes[i].value) == Some(v) ==>
                status == None && boxes[..] == old(boxes[..]) && controller.views == old(controller.views)
                && lastChanged == old(lastChanged) && lastChoice == old(lastChoice) && toggleDisabled == old(toggleDisabled)
      ensures old(boxes[i].value) != Some(v) ==>
                && lastChanged == Some(i) && lastChoice == old(boxes[i].value)
                && toggleDisabled == (old(toggleDisabled) && old(boxes[i].value).None?)
                && status == Some(SelectStatus(controller.config, Selection(WithValue(old(boxes[..]), i, v)), old(controller.views)))
                && controller.views == SelectViews(controller.config, controller.pathManager.config,
                                                   Selection(WithValue(old(boxes[..]), i, v)), old(controller.views), fileExists)
                && boxes[..] == if status == Some(Done)
                                then Repopulated(controller, nonSelectable.values, selectable, WithValue(old(boxes[..]), i, v), fileExists)
                                else WithValue(old(boxes[..]), i, v)
      ensures boxes[i].value == Some(v)
      ensures forall j :: 0 <= j < boxes.Length && j != i ==> boxes[j].value == old(boxes[j].value)
    {
      status := SetValue(i, v, fileExists);
    }

    /**
     * "Switch to last": the last changed box goes back to its previous value, which
     * records the value it leaves, so pressing again switches forth.
     */
    method SwitchToLast(fileExists: string -> bool) returns (status: Option<Status>)
      requires Valid()
      requires lastChanged.Some? && lastChoice.Some? && boxes[lastChanged.value].value != lastChoice ==>
                 forall j :: 0 <= j < boxes.Length && j != lastChanged.value ==> boxes[j].value.Some?
      modifies this, boxes, controller
      ensures Valid()
      ensures old(lastChanged).None? || old(lastChoice).None? ==>
                status == None && boxes[..] == old(boxes[..]) && controller.views == old(controller.views)
                && lastChanged == old(lastChanged) && lastChoice == old(lastChoice) && toggleDisabled == old(toggleDisabled)
      ensures old(lastChanged).Some? && old(lastChoice).Some? ==>
                var k := old(lastChanged).value;
                && k < boxes.Length
                && boxes[k].value == old(lastChoice)
                && lastChanged == old(lastChanged)
                && forall j :: 0 <= j < boxes.Length && j != k ==> boxes[j].value == old(boxes[j].value)
      ensures old(lastChanged).Some? && old(lastChoice).Some? && old(boxes[lastChanged.value].value) == old(lastChoice) ==>
                status == None && boxes[..] == old(boxes[..]) && controller.views == old(controller.views)
                && lastChoice == old(lastChoice) && toggleDisabled == old(toggleDisabled)
      ensures old(lastChanged).Some? && old(lastChoice).Some? && old(boxes[lastChanged.value].value) != old(lastChoice) ==>
                var k := old(lastChanged).value;
                var v := old(lastChoice).value;
                && lastChoice == old(boxes[k].value)
                && toggleDisabled == (old(toggleDisabled) && old(boxes[k].value).None?)
                && status == Some(SelectStatus(controller.config, Selection(WithValue(old(boxes[..]), k, v)), old(controller.views)))
                && controller.views == SelectViews(controller.config, controller.pathManager.config,
                                                   Selection(WithValue(old(boxes[..]), k, v)), old(controller.views), fileExists)
                && boxes[..] == if status == Some(Done)
                                then Repopulated(controller, nonSelectable.values, selectable, WithValue(old(boxes[..]), k, v), fileExists)
                                else WithValue(old(boxes[..]), k, v)
    {
      status := None;
      if lastChanged.Some? && lastChoice.Some? {
        var k := lastChanged.value;
        status := SetValue(k, lastChoice.value, fileExists);
      }
    }
  }

  lemma {:induction false} FirstIsIndex(ctrl: ImageController, nonSelectable: seq<string>, combos: seq<Combination>,
                     fileExists: string -> bool, n: nat)
    requires n < |combos| && HasImage(ctrl, nonSelectable, combos[n], fileExists)
    requires forall j :: 0 <= j < n ==> !HasImage(ctrl, nonSelectable, combos[j], fileExists)
    ensures FirstWithImage(ctrl, nonSelectable, combos, fileExists) == Some(n)
  {
  }

  lemma {:induction false} CrossSnoc(xs: seq<Combination>, x: Combination, ts: seq<Combination>)
    ensures Cross(xs + [x], ts) == Cross(xs, ts) + Row(x, ts)
  {
    CrossConcat(xs, [x], ts);
    assert Cross([x], ts) == Row(x, ts) + Cross([], ts);
  }
}
