/*
 * ImageController: the registry of image views, keyed by the value of the plot-by
 * dimension each one shows, and the operation that points every view at the image
 * of one set of coordinates.
 *
 * A view is modelled by what it shows: the file of its image, or None when it is
 * cleared. Image loading itself is not part of this model.
 */
module Controller {
  import opened Wrappers
  import opened Dimensions
  import opened Config
  import opened PathManager

  datatype Status = Done | IllegalArgument(msg: string) | ArrayIndexOutOfBounds

  const COORDS_MISMATCH: string := "Coords of image set must be equal to total number of dimensions - 1"

  /** The path coordinates: `coords` with `alias` inserted at position `p`. */
  function Splice(coords: seq<string>, p: nat, alias: string): (r: seq<string>)
    requires p <= |coords|
    ensures |r| == |coords| + 1 && r[p] == alias
    ensures forall k :: 0 <= k < p ==> r[k] == coords[k]
    ensures forall k :: p <= k < |coords| ==> r[k + 1] == coords[k]
  {
    coords[..p] + [alias] + coords[p..]
  }

  lemma {:induction false} SpliceOfParts(r: seq<string>, coords: seq<string>, p: nat, alias: string)
    requires p <= |coords| && |r| == |coords| + 1 && r[p] == alias
    requires forall k :: 0 <= k < p ==> r[k] == coords[k]
    requires forall k :: p <= k < |coords| ==> r[k + 1] == coords[k]
    ensures r == Splice(coords, p, alias)
  {
    var s := Splice(coords, p, alias);
    forall k | 0 <= k < |r|
      ensures r[k] == s[k]
    {
      if k > p {
        assert r[(k - 1) + 1] == coords[k - 1] == s[(k - 1) + 1];
      }
    }
  }

  /** Taking the plot-by slot back out gives the coordinates again. */
  lemma {:induction false} SpliceRemove(coords: seq<string>, p: nat, alias: string)
    requires p <= |coords|
    ensures Splice(coords, p, alias)[..p] + Splice(coords, p, alias)[p + 1..] == coords
  {
    var r := Splice(coords, p, alias);
    assert r[..p] == coords[..p];
    assert r[p + 1..] == coords[p..];
    assert coords[..p] + coords[p..] == coords;
  }

  /** Two views of one image set differ only in the plot-by slot of their coordinates. */
  lemma {:induction false} OnlyPlotSlotDiffers(coords: seq<string>, p: nat, a: string, b: string)
    requires p <= |coords|
    ensures |Splice(coords, p, a)| == |Splice(coords, p, b)|
    ensures forall k :: 0 <= k < |Splice(coords, p, a)| && k != p ==> Splice(coords, p, a)[k] == Splice(coords, p, b)[k]
    ensures Splice(coords, p, a) == Splice(coords, p, b) <==> a == b
  {
    var ra, rb := Splice(coords, p, a), Splice(coords, p, b);
    forall k | 0 <= k < |ra| && k != p
      ensures ra[k] == rb[k]
    {
      if k > p {
        assert ra[(k - 1) + 1] == coords[k - 1] == rb[(k - 1) + 1];
      }
    }
    if ra == rb {
      assert ra[p] == rb[p];
    }
  }

  /**
   * What each view shows after selectImageSet: the image of the coordinates with its
   * alias in the plot-by slot, when that file exists; nothing otherwise.
   */
  function Refreshed(views: map<string, Option<string>>, pathConfig: Config, coords: seq<string>,
                     p: nat, fileExists: string -> bool): (r: map<string, Option<string>>)
    requires p <= |coords|
    ensures r.Keys == views.Keys
  {
    map alias | alias in views :: PathOf(pathConfig, Splice(coords, p, alias), fileExists)
  }

  /** A map with the keys of `views` and the refreshed value at every key is the refreshed map. */
  lemma {:induction false} RefreshedPointwise(r: map<string, Option<string>>, views: map<string, Option<string>>,
                                              pathConfig: Config, coords: seq<string>, p: nat, fileExists: string -> bool)
    requires p <= |coords| && r.Keys == views.Keys
    requires forall a :: a in r ==> r[a] == PathOf(pathConfig, Splice(coords, p, a), fileExists)
    ensures r == Refreshed(views, pathConfig, coords, p, fileExists)
  {
    var q := Refreshed(views, pathConfig, coords, p, fileExists);
    assert forall a :: a in q ==> q[a] == r[a];
  }

  /** Selecting the same image set twice shows the same images (the old images do not matter). */
  lemma {:induction false} RefreshIdempotent(views: map<string, Option<string>>, pathConfig: Config, coords: seq<string>,
                          p: nat, fileExists: string -> bool)
    requires p <= |coords|
    ensures Refreshed(Refreshed(views, pathConfig, coords, p, fileExists), pathConfig, coords, p, fileExists)
         == Refreshed(views, pathConfig, coords, p, fileExists)
  {
  }

  /**
   * For a valid configuration, a full set of selectable coordinates always spliced to
   * as many coordinates as there are dimensions, so each view shows exactly the file
   * its resolved name gives, when it exists.
   */
  lemma {:induction false} SplicedPathResolves(config: Config, coords: seq<string>, alias: string, fileExists: string -> bool)
    requires config.Valid() && |coords| == |config.dimensions| - 1
    ensures config.plotByFieldIndex <= |coords|
    ensures |Splice(coords, config.plotByFieldIndex, alias)| == |config.dimensions|
    ensures var file := config.path + ResolveName(config.nameFormat, DimNames(config.dimensions),
                                                  Splice(coords, config.plotByFieldIndex, alias));
            PathOf(config, Splice(coords, config.plotByFieldIndex, alias), fileExists)
              == if fileExists(file) then Some(file) else None
  {
  }

  /**
   * The path the view controller's users ask for: getPath with the non-selectable value
   * spliced into the selected ones at the plot-by index. None when the index lies past
   * the spliced array.
   */
  function ControllerPath(config: Config, pathConfig: Config, nonSelectable: string,
                          selected: seq<string>, fileExists: string -> bool): (file: Option<string>)
    ensures file.Some? ==> config.plotByFieldIndex <= |selected| && fileExists(file.value)
  {
    if config.plotByFieldIndex <= |selected| then
      var file := PathOf(pathConfig, Splice(selected, config.plotByFieldIndex, nonSelectable), fileExists);
      PathNeedsAllCoords(pathConfig, Splice(selected, config.plotByFieldIndex, nonSelectable), fileExists);
      file
    else None
  }

  /**
   * How selectImageSet ends: IllegalArgumentException on a coordinate count other than
   * the dimension count minus one; an array-index failure when the plot-by index lies
   * past the path array and there is a view to update; normally otherwise.
   */
  function SelectStatus(config: Config, coords: seq<string>, views: map<string, Option<string>>): Status
  {
    if |coords| != |config.dimensions| - 1 then IllegalArgument(COORDS_MISMATCH)
    else if config.plotByFieldIndex > |coords| && views != map[] then ArrayIndexOutOfBounds
    else Done
  }

  /** The views after selectImageSet: refreshed when the path array can be built, untouched otherwise. */
  function SelectViews(config: Config, pathConfig: Config, coords: seq<string>,
                       views: map<string, Option<string>>, fileExists: string -> bool): map<string, Option<string>>
  {
    if |coords| == |config.dimensions| - 1 && config.plotByFieldIndex <= |coords| then
      Refreshed(views, pathConfig, coords, config.plotByFieldIndex, fileExists)
    else views
  }

  /**
   * For a valid configuration the only failure is the count check: with one coordinate
   * per selectable slot every view is refreshed, and a wrong count touches no view.
   */
  lemma {:induction false} SelectOnValidConfig(config: Config, pathConfig: Config, coords: seq<string>,
                            views: map<string, Option<string>>, fileExists: string -> bool)
    requires config.Valid()
    ensures SelectStatus(config, coords, views) == Done <==> |coords| == |config.dimensions| - 1
    ensures SelectStatus(config, coords, views) != Done ==>
              SelectStatus(config, coords, views) == IllegalArgument(COORDS_MISMATCH)
              && SelectViews(config, pathConfig, coords, views, fileExists) == views
    ensures SelectStatus(config, coords, views) == Done ==>
              config.plotByFieldIndex <= |coords|
              && SelectViews(config, pathConfig, coords, views, fileExists)
                 == Refreshed(views, pathConfig, coords, config.plotByFieldIndex, fileExists)
  {
  }

  class ImageController {
    var views: map<string, Option<string>>
    const config: Config
    const pathManager: ImagePathManager

    constructor(config: Config, pathManager: ImagePathManager)
      ensures this.config == config && this.pathManager == pathManager && views == map[]
    {
      this.config := config;
      this.pathManager := pathManager;
      views := map[];
    }

    /** addImageView: registers a view under an alias, replacing any earlier one. */
    method AddImageView(shown: Option<string>, alias: string)
      modifies this
      ensures views == old(views)[alias := shown]
    {
      views := views[alias := shown];
    }

    /**
     * selectImageSet: the coordinates of every dimension but the plot-by one, in
     * order. Each view then shows the image for its own alias in the plot-by slot.
     */
    method SelectImageSet(coords: seq<string>, fileExists: string -> bool) returns (status: Status)
      modifies this
      ensures status == SelectStatus(config, coords, old(views))
      ensures views == SelectViews(config, pathManager.config, coords, old(views), fileExists)
    {
      if |coords| != |config.dimensions| - 1 {
        return IllegalArgument(COORDS_MISMATCH);
      }
      var p := config.plotByFieldIndex;
      var pathCoords := FillPathCoords(coords, p);
      if p > |coords| {
        if views != map[] {
          return ArrayIndexOutOfBounds;
        }
        return Done;
      }
      ShowImageSet(pathCoords, p, coords, fileExists);
      return Done;
    }

    /**
     * The first loop of selectImageSet: the coordinates copied into an array one longer,
     * those from position p on shifted right by one.
     */
    static method FillPathCoords(coords: seq<string>, p: nat) returns (pathCoords: array<string>)
      ensures fresh(pathCoords) && pathCoords.Length == |coords| + 1
      ensures forall k :: 0 <= k < |coords| && k < p ==> pathCoords[k] == coords[k]
      ensures forall k :: p <= k < |coords| ==> pathCoords[k + 1] == coords[k]
    {
      pathCoords := new string[|coords| + 1](_ => "");
      var offset := 0;
      var i := 0;
      while i < |coords|
        invariant 0 <= i <= |coords|
        invariant offset == if p < i then 1 else 0
        invariant forall k :: 0 <= k < i && k < p ==> pathCoords[k] == coords[k]
        invariant forall k :: p <= k < i ==> pathCoords[k + 1] == coords[k]
      {
        if i == p {
          offset := 1;
        }
        pathCoords[i + offset] := coords[i];
        i := i + 1;
      }
    }

    /**
     * The second loop of selectImageSet: each view's alias goes into the plot-by slot,
     * and the view shows the path found for the result.
     */
    method ShowImageSet(pathCoords: array<string>, p: nat, ghost coords: seq<string>, fileExists: string -> bool)
      requires pathCoords.Length == |coords| + 1 && p <= |coords|
      requires forall k :: 0 <= k < p ==> pathCoords[k] == coords[k]
      requires forall k :: p <= k < |coords| ==> pathCoords[k + 1] == coords[k]
      modifies this, pathCoords
      ensures views == Refreshed(old(views), pathManager.config, coords, p, fileExists)
    {
      ghost var before := views;
      var remaining := views.Keys;
      while remaining != {}
        invariant remaining <= views.Keys && views.Keys == before.Keys
        invariant forall k :: 0 <= k < p ==> pathCoords[k] == coords[k]
        invariant forall k :: p <= k < |coords| ==> pathCoords[k + 1] == coords[k]
        invariant forall a :: a in views && a !in remaining ==>
                    views[a] == PathOf(pathManager.config, Splice(coords, p, a), fileExists)
        invariant forall a :: a in remaining ==> views[a] == before[a]
        decreases remaining
      {
        var alias :| alias in remaining;
        ShowOne(pathCoords, p, coords, alias, fileExists);
        remaining := remaining - {alias};
      }
      RefreshedPointwise(views, before, pathManager.config, coords, p, fileExists);
    }

    /** One pass of the loop: the alias goes into the plot-by slot and its view gets that file. */
    method ShowOne(pathCoords: array<string>, p: nat, ghost coords: seq<string>, alias: string, fileExists: string -> bool)
      requires pathCoords.Length == |coords| + 1 && p <= |coords|
      requires forall k :: 0 <= k < p ==> pathCoords[k] == coords[k]
      requires forall k :: p <= k < |coords| ==> pathCoords[k + 1] == coords[k]
      modifies this, pathCoords
      ensures views == old(views)[alias := PathOf(pathManager.config, Splice(coords, p, alias), fileExists)]
      ensures forall k :: 0 <= k < p ==> pathCoords[k] == coords[k]
      ensures forall k :: p <= k < |coords| ==> pathCoords[k + 1] == coords[k]
    {
      pathCoords[p] := alias;
      SpliceOfParts(pathCoords[..], coords, p, alias);
      var file := pathManager.GetPath(pathCoords[..], fileExists);
      views := views[alias := file];
    }

    /** The selectable dimensions: every dimension not named by plot_by. */
    method GetSelectableDimensions() returns (dims: seq<Dimension>)
      ensures dims == VariableDimensions(pathManager.config.dimensions, pathManager.config.plotByField)
    {
      dims := pathManager.GetVariableDimensions();
    }

    /** The non-selectable dimension: the one at the plot-by index, when there is one. */
    function GetNonSelectableDimension(): (d: Option<Dimension>)
      ensures d.Some? <==> config.plotByFieldIndex < |config.dimensions|
      ensures d.Some? ==> d.value == config.dimensions[config.plotByFieldIndex]
    {
      if config.plotByFieldIndex < |config.dimensions| then Some(config.dimensions[config.plotByFieldIndex])
      else None
    }

    /** getPath(nonSelectable, selected...): the splice of selectImageSet, then ImagePathManager.getPath. */
    method GetPath(nonSelectable: string, selected: seq<string>, fileExists: string -> bool) returns (file: Option<string>)
      ensures file == ControllerPath(config, pathManager.config, nonSelectable, selected, fileExists)
    {
      if config.plotByFieldIndex > |selected| {
        return None;
      }
      file := pathManager.GetPath(Splice(selected, config.plotByFieldIndex, nonSelectable), fileExists);
    }
  }

  /**
   * In a valid configuration the non-selectable dimension always exists: it is the
   * first dimension named by plot_by, and it is not among the selectable dimensions.
   */
  lemma {:induction false} NonSelectableIsPlotBy(ctrl: ImageController)
    requires ctrl.config.Valid()
    ensures ctrl.GetNonSelectableDimension().Some?
    ensures ctrl.GetNonSelectableDimension().value.dimName == ctrl.config.plotByField
    ensures FirstNamed(ctrl.config.dimensions, ctrl.config.plotByField) == Some(ctrl.config.plotByFieldIndex)
    ensures ctrl.GetNonSelectableDimension().value !in VariableDimensions(ctrl.config.dimensions, ctrl.config.plotByField)
  {
    var dims, name := ctrl.config.dimensions, ctrl.config.plotByField;
    VariableDimensionsMembers(dims, name);
  }
}
