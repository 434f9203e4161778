/**
 * Dimension: a named axis the images vary along, with a title for display and an
 * ordered list of values (duplicates and the empty string allowed).
 *
 * Java gives a Dimension object identity: it does not override `equals`, so two
 * Dimensions are equal only when they are the same object. The model keeps that
 * identity explicit as `ref`, the number of the allocation that created the object.
 * Name and title are final; the value list is the constructor's list itself, which
 * the configuration parser appends to through `getValues()`.
 */
module Dimensions {
  import opened Wrappers

  datatype Dimension = Dimension(ref: nat, dimName: string, dimTitle: string, values: seq<string>)
  {
    function GetDimName(): string { dimName }

    function GetDimTitle(): string { dimTitle }

    function GetValues(): seq<string> { values }

    /**
     * `getValues().add(v)`: the same object, with `v` appended to its list; name and
     * title are final and stay as they were.
     */
    function AddValue(v: string): (d: Dimension)
      ensures d.ref == ref
      ensures d.GetDimName() == GetDimName() && d.GetDimTitle() == GetDimTitle()
      ensures d.GetValues() == GetValues() + [v]
      ensures |d.GetValues()| == |GetValues()| + 1 && d.GetValues()[|GetValues()|] == v
    {
      this.(values := values + [v])
    }

    /** Object.equals: the same object; `None` stands for null. */
    predicate Equals(other: Option<Dimension>) { other.Some? && other.value.ref == ref }
  }

  /** `new Dimension(dimName, dimTitle, values)` as object number `ref`. */
  function NewDimension(ref: nat, dimName: string, dimTitle: string, values: seq<string>): (d: Dimension)
    ensures d.GetDimName() == dimName && d.GetDimTitle() == dimTitle && d.GetValues() == values
    ensures d.ref == ref
  {
    Dimension(ref, dimName, dimTitle, values)
  }

  /** Appending the values `vs` one by one, as the parser does line by line. */
  function AddValues(d: Dimension, vs: seq<string>): Dimension
  {
    if |vs| == 0 then d else AddValues(d, vs[..|vs| - 1]).AddValue(vs[|vs| - 1])
  }

  /**
   * Every value appended through `getValues()` shows up in later reads, in the order
   * appended and with duplicates kept; name, title and identity never change.
   */
  lemma {:induction false} AddValuesAppends(d: Dimension, vs: seq<string>)
    ensures AddValues(d, vs).GetValues() == d.GetValues() + vs
    ensures AddValues(d, vs).GetDimName() == d.GetDimName()
    ensures AddValues(d, vs).GetDimTitle() == d.GetDimTitle()
    ensures AddValues(d, vs).Equals(Some(d))
  {
    if |vs| > 0 {
      AddValuesAppends(d, vs[..|vs| - 1]);
      assert vs == vs[..|vs| - 1] + [vs[|vs| - 1]];
    }
  }

  /**
   * Equality is identity: objects with the same name, title and values built by two
   * different `new` calls are not equal, and a Dimension is always equal to itself.
   */
  lemma {:induction false} EqualsIsIdentity(a: Dimension, b: Dimension)
    ensures a.Equals(Some(a))
    ensures a.Equals(Some(b)) <==> a.ref == b.ref
    ensures !a.Equals(None)
  {
  }
}
