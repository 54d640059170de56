/**
  The asset layer of the inspection map: the in-memory list of placed assets
  (gullyData), the search filter that dims or hides their markers, the placement of
  a new marker in its layer group, and the click and hover rules of each marker.

  Leaflet is outside the model: a Marker object stands for a Leaflet marker and keeps
  only what this code reads or writes, and the functions the file calls but does not
  define (handleGullyDelete, showInspectionPopup) are recorded as calls.
 */
module AssetRegistry {
  import opened Base
  import opened Text

  datatype LatLng = LatLng(lat: real, lng: real)

  /** An entry of layerIcons; how it is drawn is Leaflet's business. */
  datatype Icon = Icon(name: string)

  /** L.circleMarker, L.marker with a layer icon, or a plain L.marker. */
  datatype MarkerKind = CircleMarker | IconMarker(icon: Icon) | DefaultMarker

  /** The options getMarkerOptions(status) gives a circle marker. */
  datatype CircleStyle = CircleStyle(title: Option<string>, radius: int)

  const GulliesLayer: string := "gullies"
  const AllLayers: string := "all"
  const DefaultStatus: string := "Unmarked"

  const FullOpacity: real := 1.0
  const DimmedOpacity: real := 0.2
  const ShownDisplay: string := ""
  const HiddenDisplay: string := "none"

  const HoverRadius: int := 10
  const DeleteModeRadius: int := 8
  const NormalRadius: int := 6

  /**
    A Leaflet marker. Vector circle markers have no setOpacity method and no icon
    element, so `canSetOpacity` and `hasIcon` hold only for icon and plain markers.
    `gullyId`, `layerType` and `at` are the values its handlers closed over.
   */
  class Marker {
    const kind: MarkerKind
    const at: LatLng
    /** options.title */
    const title: Option<string>
    const canSetOpacity: bool
    const hasIcon: bool
    const gullyId: string
    const layerType: string
    var opacity: real
    /** _icon.style.display */
    var iconDisplay: string
    var radius: int

    constructor (kind: MarkerKind, at: LatLng, title: Option<string>, gullyId: string, layerType: string, radius: int)
      ensures this.kind == kind && this.at == at && this.title == title
      ensures this.gullyId == gullyId && this.layerType == layerType && this.radius == radius
      ensures canSetOpacity == !kind.CircleMarker? && hasIcon == !kind.CircleMarker?
      ensures opacity == FullOpacity && iconDisplay == ShownDisplay
    {
      this.kind := kind;
      this.at := at;
      this.title := title;
      this.gullyId := gullyId;
      this.layerType := layerType;
      this.radius := radius;
      canSetOpacity := !kind.CircleMarker?;
      hasIcon := !kind.CircleMarker?;
      opacity := FullOpacity;
      iconDisplay := ShownDisplay;
    }

    /** The filter's display update of one marker, given the record's two test results. */
    method ShowMatch(matchesLayer: bool, matchesText: bool)
      modifies this`opacity, this`iconDisplay
      ensures ViewOf(this) == Restyle(old(ViewOf(this)), Outcome(matchesLayer, matchesText), canSetOpacity, hasIcon)
    {
      if matchesLayer && matchesText {
        if canSetOpacity { opacity := FullOpacity; }
        if hasIcon { iconDisplay := ShownDisplay; }
      } else {
        if canSetOpacity { opacity := DimmedOpacity; }
        if hasIcon { iconDisplay := if matchesLayer then ShownDisplay else HiddenDisplay; }
      }
    }
  }

  /** One entry of gullyData. */
  datatype GullyRecord = GullyRecord(marker: Marker, id: string, layer: string, status: string)

  /** A layer group of window.dataLayers: a plain layer group or a cluster group. */
  datatype LayerGroup = LayerGroup(clustered: bool, members: seq<Marker>)

  /** A call of handleGullyDelete(gullyId, marker, layerType). */
  datatype DeleteCall = DeleteCall(gullyId: string, marker: Marker, layerType: string)

  /** A call of showInspectionPopup(marker, gullyId, latlng, layerType). */
  datatype PopupCall = PopupCall(marker: Marker, gullyId: string, at: LatLng, layerType: string)

  // ---------------------------------------------------------------------------
  // The search filter, per record
  // ---------------------------------------------------------------------------

  /**
    q is the slice of `input` starting at a, lower-cased, and everything of `input`
    around that slice is white space.
   */
  ghost predicate LoweredSlice(input: string, q: string, a: int)
  {
    && 0 <= a <= |input| - |q|
    && (forall k :: 0 <= k < a ==> IsSpace(input[k]))
    && (forall k :: a + |q| <= k < |input| ==> IsSpace(input[k]))
    && (forall k :: 0 <= k < |q| ==> q[k] == LowerChar(input[a + k]))
  }

  /** Lower-casing a slice with white space around it gives a lowered slice of the same input. */
  lemma TrimLowered(input: string, t: string, q: string)
    requires exists a :: SpaceAround(input, t, a)
    requires |q| == |t| && forall k :: 0 <= k < |t| ==> q[k] == LowerChar(t[k])
    ensures exists a :: LoweredSlice(input, q, a)
  {
    var a :| SpaceAround(input, t, a);
    forall k | 0 <= k < |q| ensures q[k] == LowerChar(input[a + k]) {
      assert t[k] == input[a + k];
    }
    assert LoweredSlice(input, q, a);
  }

  /**
    The search box value as the filter uses it: trimmed, then lower-cased. It is the
    lower-cased middle of the input between white-space ends, and it neither starts
    nor ends with white space.
   */
  function NormalizeSearch(input: string): (q: string)
    ensures |q| <= |input|
    ensures forall i :: 0 <= i < |q| ==> !IsUpper(q[i])
    ensures q != [] ==> !IsSpace(q[0]) && !IsSpace(q[|q| - 1])
    ensures exists a :: LoweredSlice(input, q, a)
  {
    var t := Trim(input);
    var q := ToLower(t);
    TrimLowered(input, t, q);
    if t == [] then q
    else
      assert q[0] == LowerChar(t[0]) && q[|q| - 1] == LowerChar(t[|t| - 1]);
      LowerCharSpace(t[0]);
      LowerCharSpace(t[|t| - 1]);
      q
  }

  /** A record is in the selected layer when "all" is selected or its layer is exactly the selection. */
  predicate MatchesLayer(layer: string, selectedLayer: string)
    ensures selectedLayer == AllLayers ==> MatchesLayer(layer, selectedLayer)
    ensures selectedLayer != AllLayers ==> (MatchesLayer(layer, selectedLayer) <==> layer == selectedLayer)
  {
    selectedLayer == AllLayers || layer == selectedLayer
  }

  /** The lower-cased field contains q at some position. */
  ghost predicate Mentions(field: string, q: string)
  {
    exists i :: OccursAt(ToLower(field), q, i)
  }

  /** `field && field.toLowerCase().includes(q)` for a non-empty q: an empty field never matches. */
  function FieldMatches(field: string, q: string): (r: bool)
    requires q != ""
    ensures r <==> Mentions(field, q)
  {
    ContainsIff(ToLower(field), q);
    assert Contains(ToLower(field), q) <==> Mentions(field, q);
    if field == "" then
      assert forall i :: !OccursAt(ToLower(field), q, i);
      false
    else Contains(ToLower(field), q)
  }

  /**
    A record matches the normalised search text when the text is empty, or when its
    lower-cased id, status or marker title contains it; a missing title never matches.
   */
  function MatchesText(g: GullyRecord, q: string): (r: bool)
    ensures r <==>
      || q == ""
      || Mentions(g.id, q)
      || Mentions(g.status, q)
      || (g.marker.title.Some? && Mentions(g.marker.title.value, q))
  {
    if q == "" then true
    else
      var idMatch := FieldMatches(g.id, q);
      var statusMatch := FieldMatches(g.status, q);
      var descMatch := g.marker.title.Some? && FieldMatches(g.marker.title.value, q);
      idMatch || statusMatch || descMatch
  }

  /** The three display outcomes of the filter. */
  datatype Treatment = Full | Dimmed | Hidden

  /** Both tests pass: full; only the layer test passes: dimmed; the layer test fails: hidden. */
  function Outcome(matchesLayer: bool, matchesText: bool): (t: Treatment)
    ensures t == Full <==> matchesLayer && matchesText
    ensures t == Dimmed <==> matchesLayer && !matchesText
    ensures t == Hidden <==> !matchesLayer
  {
    if matchesLayer && matchesText then Full
    else if matchesLayer then Dimmed
    else Hidden
  }

  function TreatmentOf(g: GullyRecord, q: string, selectedLayer: string): Treatment
  {
    Outcome(MatchesLayer(g.layer, selectedLayer), MatchesText(g, q))
  }

  /**
    The outcome for every record and filter state: hidden exactly when a specific layer
    other than the record's is selected; dimmed exactly when the layer matches but the
    search text is non-empty and found in none of id, status and title; full otherwise.
   */
  lemma TreatmentCases(g: GullyRecord, q: string, selectedLayer: string)
    ensures TreatmentOf(g, q, selectedLayer) == Hidden <==> selectedLayer != AllLayers && g.layer != selectedLayer
    ensures TreatmentOf(g, q, selectedLayer) == Dimmed <==>
      (selectedLayer == AllLayers || g.layer == selectedLayer) && !MatchesText(g, q)
    ensures TreatmentOf(g, q, selectedLayer) == Full <==>
      (selectedLayer == AllLayers || g.layer == selectedLayer) && MatchesText(g, q)
  {
  }

  /** The search ignores case: inputs that agree once lower-cased select the same records. */
  lemma SearchIgnoresCase(input1: string, input2: string)
    requires ToLower(input1) == ToLower(input2)
    ensures NormalizeSearch(input1) == NormalizeSearch(input2)
  {
    TrimToLower(input1);
    TrimToLower(input2);
  }

  /** What the filter touches on a marker. */
  datatype MarkerView = MarkerView(opacity: real, iconDisplay: string)

  ghost function ViewOf(m: Marker): MarkerView
    reads m
  {
    MarkerView(m.opacity, m.iconDisplay)
  }

  /**
    The display a treatment gives a marker: opacity 1 for a full match and 0.2
    otherwise, icon hidden only for a record outside the selected layer; a marker
    without setOpacity or without an icon element keeps that part as it was.
   */
  function Restyle(v: MarkerView, t: Treatment, canSetOpacity: bool, hasIcon: bool): (w: MarkerView)
    ensures canSetOpacity ==> (w.opacity == FullOpacity <==> t == Full)
    ensures hasIcon ==> (w.iconDisplay == HiddenDisplay <==> t == Hidden)
    ensures !canSetOpacity ==> w.opacity == v.opacity
    ensures !hasIcon ==> w.iconDisplay == v.iconDisplay
    ensures canSetOpacity && t != Full ==> w.opacity == DimmedOpacity
    ensures hasIcon && t != Hidden ==> w.iconDisplay == ShownDisplay
  {
    MarkerView(
      if canSetOpacity then (if t == Full then FullOpacity else DimmedOpacity) else v.opacity,
      if hasIcon then (if t == Hidden then HiddenDisplay else ShownDisplay) else v.iconDisplay)
  }

  /** Restyling with the same outcome twice is restyling once. */
  lemma RestyleIdempotent(v: MarkerView, t: Treatment, canSetOpacity: bool, hasIcon: bool)
    ensures Restyle(Restyle(v, t, canSetOpacity, hasIcon), t, canSetOpacity, hasIcon) == Restyle(v, t, canSetOpacity, hasIcon)
  {
  }

  /** Which Leaflet marker a new asset gets. */
  function KindFor(layerType: string, layerIcons: map<string, Icon>): (k: MarkerKind)
    ensures k.CircleMarker? <==> layerType == GulliesLayer
    ensures k.IconMarker? <==> layerType != GulliesLayer && layerType in layerIcons
    ensures k.IconMarker? ==> k.icon == layerIcons[layerType]
  {
    if layerType == GulliesLayer then CircleMarker
    else if layerType in layerIcons then IconMarker(layerIcons[layerType])
    else DefaultMarker
  }

  /** window.dataLayers as the file sets it up: plain for gullies, clustered for the rest. */
  function InitialGroups(): map<string, LayerGroup>
  {
    map[
      GulliesLayer := LayerGroup(false, []),
      "playgrounds" := LayerGroup(true, []),
      "walkways" := LayerGroup(true, []),
      "signage" := LayerGroup(true, []),
      "lining" := LayerGroup(true, [])]
  }

  /**
    The marker's handlers captured the record's id and layer, and a gully's marker is
    a circle marker, with neither setOpacity nor an icon element.
   */
  ghost predicate Consistent(r: GullyRecord)
  {
    && r.marker.gullyId == r.id && r.marker.layerType == r.layer
    && (r.layer == GulliesLayer ==> !r.marker.canSetOpacity && !r.marker.hasIcon)
  }

  /** Appending a consistent record keeps every record consistent. */
  lemma AppendKeepsConsistent(data: seq<GullyRecord>, r: GullyRecord)
    requires forall i :: 0 <= i < |data| ==> Consistent(data[i])
    requires Consistent(r)
    ensures forall i :: 0 <= i < |data + [r]| ==> Consistent((data + [r])[i])
  {
  }

  // ---------------------------------------------------------------------------
  // Placement of markers in layer groups
  // ---------------------------------------------------------------------------

  /** The marker is in the group of `layer` and no other, or straight on the map when that group does not exist. */
  ghost predicate Placed(groups: map<string, LayerGroup>, onMap: seq<Marker>, m: Marker, layer: string)
  {
    && (layer in groups ==> m in groups[layer].members && m !in onMap)
    && (layer !in groups ==> m in onMap)
    && (forall name :: name in groups && m in groups[name].members ==> name == layer)
  }

  /** Adds a marker to the group of `layer`, or straight to the map when there is no such group. */
  function Place(groups: map<string, LayerGroup>, onMap: seq<Marker>, layer: string, m: Marker): (map<string, LayerGroup>, seq<Marker>)
  {
    if layer in groups then (groups[layer := groups[layer].(members := groups[layer].members + [m])], onMap)
    else (groups, onMap + [m])
  }

  /** Placing a marker moves no other marker. */
  lemma PlaceKeepsOthers(groups: map<string, LayerGroup>, onMap: seq<Marker>, layer: string, m: Marker, other: Marker, otherLayer: string)
    requires Placed(groups, onMap, other, otherLayer) && other != m
    ensures Placed(Place(groups, onMap, layer, m).0, Place(groups, onMap, layer, m).1, other, otherLayer)
  {
    var (g2, o2) := Place(groups, onMap, layer, m);
    forall name | name in g2 && other in g2[name].members ensures name == otherLayer {
      if name == layer {
        assert other in groups[layer].members;
      }
    }
  }

  /** A marker in no group and not on the map is, once placed, placed in `layer`. */
  lemma PlaceNew(groups: map<string, LayerGroup>, onMap: seq<Marker>, layer: string, m: Marker)
    requires m !in onMap
    requires forall name :: name in groups ==> m !in groups[name].members
    ensures Placed(Place(groups, onMap, layer, m).0, Place(groups, onMap, layer, m).1, m, layer)
  {
  }

  /** Appending a record whose marker is new and placing that marker keeps every record placed. */
  lemma AppendKeepsPlacement(data: seq<GullyRecord>, groups: map<string, LayerGroup>, onMap: seq<Marker>, r: GullyRecord)
    requires forall i :: 0 <= i < |data| ==> Placed(groups, onMap, data[i].marker, data[i].layer)
    requires forall i :: 0 <= i < |data| ==> data[i].marker != r.marker
    requires r.marker !in onMap && forall name :: name in groups ==> r.marker !in groups[name].members
    ensures forall i :: 0 <= i < |data + [r]| ==>
      Placed(Place(groups, onMap, r.layer, r.marker).0, Place(groups, onMap, r.layer, r.marker).1,
             (data + [r])[i].marker, (data + [r])[i].layer)
  {
    forall i | 0 <= i < |data + [r]|
      ensures Placed(Place(groups, onMap, r.layer, r.marker).0, Place(groups, onMap, r.layer, r.marker).1,
                     (data + [r])[i].marker, (data + [r])[i].layer)
    {
      if i < |data| {
        assert (data + [r])[i] == data[i];
        PlaceKeepsOthers(groups, onMap, r.layer, r.marker, data[i].marker, data[i].layer);
      } else {
        PlaceNew(groups, onMap, r.layer, r.marker);
      }
    }
  }

  ghost predicate MarkersDistinct(data: seq<GullyRecord>)
  {
    forall i, j :: 0 <= i < j < |data| ==> data[i].marker != data[j].marker
  }

  /** The body of the filter's forEach: each record's marker in turn gets the display of its treatment under q. */
  method ShowEach(data: seq<GullyRecord>, q: string, selectedLayer: string)
    requires MarkersDistinct(data)
    modifies set i | 0 <= i < |data| :: data[i].marker
    ensures forall k :: 0 <= k < |data| ==>
      ViewOf(data[k].marker) == Restyle(old(ViewOf(data[k].marker)), TreatmentOf(data[k], q, selectedLayer),
                                        data[k].marker.canSetOpacity, data[k].marker.hasIcon)
    ensures forall k :: 0 <= k < |data| ==> data[k].marker.radius == old(data[k].marker.radius)
  {
    var i := 0;
    while i < |data|
      invariant 0 <= i <= |data|
      invariant forall k :: 0 <= k < i ==>
        ViewOf(data[k].marker) == Restyle(old(ViewOf(data[k].marker)), TreatmentOf(data[k], q, selectedLayer),
                                          data[k].marker.canSetOpacity, data[k].marker.hasIcon)
      invariant forall k :: i <= k < |data| ==> ViewOf(data[k].marker) == old(ViewOf(data[k].marker))
      invariant forall k :: 0 <= k < |data| ==> data[k].marker.radius == old(data[k].marker.radius)
    {
      var g := data[i];
      assert forall k :: 0 <= k < |data| && k != i ==> data[k].marker != g.marker;
      var matchesLayer := MatchesLayer(g.layer, selectedLayer);
      var matchesText := MatchesText(g, q);
      g.marker.ShowMatch(matchesLayer, matchesText);
      i := i + 1;
    }
  }

  // ---------------------------------------------------------------------------
  // The map state
  // ---------------------------------------------------------------------------

  /**
    The map page's asset state: gullyData, the layer groups, the markers added
    straight to the map, the delete-mode flag, the current marker, and the calls
    made to the handlers this file does not define. `layerIcons` and
    `markerOptions` (getMarkerOptions) are given by the page.
   */
  class GullyMap {
    var gullyData: seq<GullyRecord>
    var groups: map<string, LayerGroup>
    var onMap: seq<Marker>
    var deleteMode: bool
    var currentMarker: Marker?
    var deleteCalls: seq<DeleteCall>
    var popupCalls: seq<PopupCall>
    const layerIcons: map<string, Icon>
    const markerOptions: string -> CircleStyle

    /**
      Each record has its own marker, that marker's handlers captured the record's id
      and layer, it sits in exactly one place: its layer's group, or the map, and a
      gully's marker is a circle marker, with neither setOpacity nor an icon element.
     */
    ghost predicate Valid()
      reads this
    {
      && DistinctMarkers()
      && (forall i :: 0 <= i < |gullyData| ==> Consistent(gullyData[i]))
      && (forall i :: 0 <= i < |gullyData| ==> Placed(groups, onMap, gullyData[i].marker, gullyData[i].layer))
    }

    /** No two records share a marker. */
    ghost predicate DistinctMarkers()
      reads this
    {
      MarkersDistinct(gullyData)
    }

    ghost function Markers(): set<Marker>
      reads this
    {
      set i | 0 <= i < |gullyData| :: gullyData[i].marker
    }

    constructor (layerIcons: map<string, Icon>, markerOptions: string -> CircleStyle)
      ensures Valid()
      ensures gullyData == [] && groups == InitialGroups() && onMap == []
      ensures !deleteMode && currentMarker == null && deleteCalls == [] && popupCalls == []
      ensures this.layerIcons == layerIcons && this.markerOptions == markerOptions
    {
      gullyData := [];
      groups := InitialGroups();
      onMap := [];
      deleteMode := false;
      currentMarker := null;
      deleteCalls := [];
      popupCalls := [];
      this.layerIcons := layerIcons;
      this.markerOptions := markerOptions;
    }

    /**
      addGullyToMap: creates the marker (a circle styled by status for gullies, the
      layer's icon or a plain marker otherwise), puts it in its layer group or straight
      on the map, and appends one record at the end of gullyData. Ids are not checked:
      a repeated id gives a second record.
     */
    method AddGully(at: LatLng, gullyId: string, layerType: string := GulliesLayer, status: string := DefaultStatus)
      returns (marker: Marker)
      requires Valid()
      modifies this
      ensures Valid()
      ensures fresh(marker)
      ensures gullyData == old(gullyData) + [GullyRecord(marker, gullyId, layerType, status)]
      ensures marker.kind == KindFor(layerType, layerIcons)
      ensures marker.at == at && marker.gullyId == gullyId && marker.layerType == layerType
      ensures layerType == GulliesLayer ==>
        marker.title == markerOptions(status).title && marker.radius == markerOptions(status).radius
      ensures layerType != GulliesLayer ==> marker.title == None
      ensures marker.canSetOpacity == !marker.kind.CircleMarker? && marker.hasIcon == !marker.kind.CircleMarker?
      ensures marker.opacity == FullOpacity && marker.iconDisplay == ShownDisplay
      ensures layerType in old(groups) ==>
        && groups == old(groups)[layerType := old(groups)[layerType].(members := old(groups)[layerType].members + [marker])]
        && onMap == old(onMap)
      ensures layerType !in old(groups) ==> groups == old(groups) && onMap == old(onMap) + [marker]
      ensures deleteMode == old(deleteMode) && currentMarker == old(currentMarker)
      ensures deleteCalls == old(deleteCalls) && popupCalls == old(popupCalls)
    {
      var kind := KindFor(layerType, layerIcons);
      if layerType == GulliesLayer {
        var style := markerOptions(status);
        marker := new Marker(kind, at, style.title, gullyId, layerType, style.radius);
      } else {
        marker := new Marker(kind, at, None, gullyId, layerType, 0);
      }
      var record := GullyRecord(marker, gullyId, layerType, status);
      AppendKeepsConsistent(gullyData, record);
      AppendKeepsPlacement(gullyData, groups, onMap, record);
      groups, onMap := Place(groups, onMap, layerType, marker).0, Place(groups, onMap, layerType, marker).1;
      gullyData := gullyData + [record];
    }

    /**
      filterAssets: gives every record's marker the display of its treatment under
      the search box value and the selected layer. Nothing else changes: not the
      records, their order, nor any marker's radius.
     */
    method FilterAssets(searchInput: string, selectedLayer: string)
      requires DistinctMarkers()
      modifies Markers()
      ensures unchanged(this)
      ensures forall i :: 0 <= i < |gullyData| ==>
        ViewOf(gullyData[i].marker) == Restyle(old(ViewOf(gullyData[i].marker)),
                                               TreatmentOf(gullyData[i], NormalizeSearch(searchInput), selectedLayer),
                                               gullyData[i].marker.canSetOpacity, gullyData[i].marker.hasIcon)
      ensures forall i :: 0 <= i < |gullyData| ==> gullyData[i].marker.radius == old(gullyData[i].marker.radius)
      ensures forall i :: 0 <= i < |gullyData| && gullyData[i].layer == GulliesLayer && Consistent(gullyData[i]) ==>
        ViewOf(gullyData[i].marker) == old(ViewOf(gullyData[i].marker))
    {
      var q := NormalizeSearch(searchInput);
      var data := gullyData;
      ShowEach(data, q, selectedLayer);
      forall k | 0 <= k < |data| && data[k].layer == GulliesLayer && Consistent(data[k])
        ensures ViewOf(data[k].marker) == old(ViewOf(data[k].marker))
      {
        assert !data[k].marker.canSetOpacity && !data[k].marker.hasIcon;
      }
    }

    /** The click handler: in delete mode it asks for the delete, otherwise it selects the marker and opens its popup. */
    method Click(m: Marker)
      modifies this`currentMarker, this`deleteCalls, this`popupCalls
      ensures deleteMode ==>
        && deleteCalls == old(deleteCalls) + [DeleteCall(m.gullyId, m, m.layerType)]
        && currentMarker == old(currentMarker) && popupCalls == old(popupCalls)
      ensures !deleteMode ==>
        && currentMarker == m
        && popupCalls == old(popupCalls) + [PopupCall(m, m.gullyId, m.at, m.layerType)]
        && deleteCalls == old(deleteCalls)
    {
      if deleteMode {
        deleteCalls := deleteCalls + [DeleteCall(m.gullyId, m, m.layerType)];
      } else {
        currentMarker := m;
        popupCalls := popupCalls + [PopupCall(m, m.gullyId, m.at, m.layerType)];
      }
    }

    /** The mouseover handler: a gully marker grows to radius 10 in delete mode; nothing else changes. */
    method MouseOver(m: Marker)
      modifies m`radius
      ensures m.radius == (if deleteMode && m.layerType == GulliesLayer then HoverRadius else old(m.radius))
    {
      if deleteMode && m.layerType == GulliesLayer {
        m.radius := HoverRadius;
      }
    }

    /** The mouseout handler: a gully marker goes to radius 8 in delete mode and 6 otherwise; other markers keep theirs. */
    method MouseOut(m: Marker)
      modifies m`radius
      ensures m.layerType == GulliesLayer ==> m.radius == (if deleteMode then DeleteModeRadius else NormalRadius)
      ensures m.layerType != GulliesLayer ==> m.radius == old(m.radius)
    {
      if deleteMode && m.layerType == GulliesLayer {
        m.radius := DeleteModeRadius;
      } else if m.layerType == GulliesLayer {
        m.radius := NormalRadius;
      }
    }
  }

  /**
    Running the filter a second time with the same inputs leaves every marker as one
    run does: the second run meets the single run's postcondition.
   */
  method FilterTwice(gullyMap: GullyMap, searchInput: string, selectedLayer: string)
    requires gullyMap.DistinctMarkers()
    modifies gullyMap.Markers()
    ensures unchanged(gullyMap)
    ensures forall i :: 0 <= i < |gullyMap.gullyData| ==>
      var g := gullyMap.gullyData[i];
      ViewOf(g.marker) == Restyle(old(ViewOf(g.marker)), TreatmentOf(g, NormalizeSearch(searchInput), selectedLayer),
                                  g.marker.canSetOpacity, g.marker.hasIcon)
  {
    gullyMap.FilterAssets(searchInput, selectedLayer);
    gullyMap.FilterAssets(searchInput, selectedLayer);
    forall i | 0 <= i < |gullyMap.gullyData|
      ensures var g := gullyMap.gullyData[i];
        ViewOf(g.marker) == Restyle(old(ViewOf(g.marker)), TreatmentOf(g, NormalizeSearch(searchInput), selectedLayer),
                                    g.marker.canSetOpacity, g.marker.hasIcon)
    {
      var g := gullyMap.gullyData[i];
      RestyleIdempotent(old(ViewOf(g.marker)), TreatmentOf(g, NormalizeSearch(searchInput), selectedLayer),
                        g.marker.canSetOpacity, g.marker.hasIcon);
    }
  }
}
