/** ReadSingleElement and WriteSingleElement (io.cpp:378-406, 527-534): one
    feature from or to a MIF/MID pair, the attributes on the MID side and
    the geometry on the MIF side. */
module IoElement {
  import opened Wrappers
  import opened Foreign
  import opened Streams
  import opened AttrValues
  import opened MifHeaders
  import opened MifElements
  import opened IoAttr
  import opened IoGeo
  import opened IoGeoRead
  import opened IoGeoWrite

  /** What ReadSingleElement does, as values: its result, the streams
      afterwards, and what it sets on the element (None: left as it was). */
  datatype ElementRead = ElementRead(
    status: Status,
    attrs: Option<map<string, AttrState>>,
    geo: Option<Option<Geometry>>,
    mifSt: Stream,
    midSt: Stream)

  /** ReadSingleElement: the MID record first, into a fresh map; a status
      other than 0 is handed back as it is and leaves the element alone.
      Otherwise the element takes the map; with midOnly the geometry is set
      to null and nothing is read from the MIF stream.  Otherwise the
      geometry is read into a nullptr: 0 sets it on the element, a
      returned -1 or 1 answers -1, an exception passes through, and the
      element's geometry stays as it was. */
  function ElementSpec(mifSt: Stream, midSt: Stream, h: HeaderState, midOnly: bool, env: Env): ElementRead
    requires |h.names| == |h.types|
  {
    var a := ReadSingleAttrSpec(midSt, h, map[], env);
    if a.status != Success then ElementRead(a.status, None, None, mifSt, a.st)
    else if midOnly then ElementRead(Success, Some(a.attrs), Some(None), mifSt, a.st)
    else
      var g := GeoRecord(mifSt, None, env);
      if g.status == Success then ElementRead(Success, Some(a.attrs), Some(g.geo), g.st, a.st)
      else if g.status.Raised? then ElementRead(g.status, Some(a.attrs), None, g.st, a.st)
      else ElementRead(Failure, Some(a.attrs), None, g.st, a.st)
  }

  /** A 0 from ReadSingleElement leaves a record's attributes and a
      well-formed geometry on the element; a result other than 0 after the
      attributes were read is -1 or the exception of the geometry reader;
      the element is left alone only when the MID side did not give 0. */
  lemma ElementSettled(mifSt: Stream, midSt: Stream, h: HeaderState, midOnly: bool, env: Env)
    requires |h.names| == |h.types|
    ensures var e := ElementSpec(mifSt, midSt, h, midOnly, env);
      && (e.status == Success ==> e.attrs.Some? && e.geo.Some? && WellFormed(e.geo.value))
      && (e.attrs.None? <==> ReadSingleAttrSpec(midSt, h, map[], env).status != Success)
      && (e.attrs.Some? && e.status != Success ==> e.status == Failure || e.status == Raised(VectorTooLong))
      && (e.attrs.None? ==> e.status == Failure || e.status == EndOfFile)
  {
    GeoRecordSettled(mifSt, None, env);
  }

  /** ReadSingleElement. */
  method ReadSingleElement(mifSt: Stream, midSt: Stream, h: HeaderState, midOnly: bool, elem: MifElement, env: Env)
    returns (status: Status, mifSt': Stream, midSt': Stream)
    requires |h.names| == |h.types|
    modifies elem
    ensures var e := ElementSpec(mifSt, midSt, h, midOnly, env);
      && status == e.status && mifSt' == e.mifSt && midSt' == e.midSt
      && (e.attrs.Some? ==> elem.Valid() && elem.Values() == e.attrs.value)
      && (e.attrs.None? ==> elem.attrs == old(elem.attrs))
      && elem.geo == (if e.geo.Some? then e.geo.value else old(elem.geo))
  {
    hide ReadSingleAttrSpec, GeoRecord;
    var attrStatus, attrMap;
    attrStatus, attrMap, midSt' := ReadSingleAttr(midSt, h, map[], env);
    if attrStatus == Success {
      elem.SetAttrsMap(attrMap);
    } else {
      return attrStatus, mifSt, midSt';
    }
    if midOnly {
      elem.SetGeo(None);
      return Success, mifSt, midSt';
    }
    var geoStatus, geo;
    geoStatus, geo, mifSt' := ReadSingleGeo(mifSt, None, env);
    if geoStatus == Success {
      elem.SetGeo(geo);
    } else if geoStatus.Raised? {
      return geoStatus, mifSt', midSt';
    } else {
      return Failure, mifSt', midSt';
    }
    status := Success;
  }

  /** WriteSingleElement: the MID record, then the geometry; 0 exactly
      when the geometry could be written (the attribute writer always
      succeeds), -1 otherwise.  The element is not changed. */
  method WriteSingleElement(h: HeaderState, elem: MifElement, env: Env) returns (code: int, mifText: string, midText: string)
    requires |h.names| == |h.types|
    ensures midText == RecordText(h, elem.Values(), env)
    ensures code == 0 || code == -1
    ensures code == 0 <==> GeoText(elem.geo, env).Some?
    ensures mifText == if code == 0 then GeoText(elem.geo, env).value else ""
  {
    var attrOk, geoOk;
    attrOk, midText := WriteElementAttr(h, elem, env);
    mifText := "";
    if attrOk {
      geoOk, mifText := WriteElementGeo(elem.geo, env);
    }
    code := if attrOk && geoOk then 0 else -1;
  }
}
