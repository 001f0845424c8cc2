/** One feature written by WriteSingleElement and read back by
    ReadSingleElement (io.cpp:378-406 against io.cpp:527-534): the MID
    record and the MIF geometry each come back as their own round trips
    say. */
module ElementRoundTrip {
  import opened Wrappers
  import opened Foreign
  import opened Streams
  import opened AttrValues
  import opened MifHeaders
  import opened IoAttr
  import opened IoGeoRead
  import opened IoGeoWrite
  import opened IoElement
  import GeoRoundTrip

  /** The texts WriteSingleElement produces for a record and a printable
      geometry, each followed by anything at all, read back by
      ReadSingleElement: result 0, every column under its name with the
      value the attribute round trip gives, the geometry the geometry round
      trip gives, and both streams just past the feature. */
  lemma ElementBack(h: HeaderState, vals: map<string, AttrState>, geo: Option<Geometry>,
                    mifRest: string, midRest: string, env: Env)
    requires RecordWritable(h, vals, env) && GeoRoundTrip.Printable(geo, env)
    ensures GeoText(geo, env).Some?
    ensures var e := ElementSpec(Open(GeoText(geo, env).value + mifRest), Open(RecordText(h, vals, env) + midRest), h, false, env);
      && e.status == Success
      && e.geo == Some(GeoRoundTrip.ReadBack(geo, env))
      && e.mifSt == Open(GeoRoundTrip.Remaining(geo, mifRest)) && e.midSt == Open(midRest)
      && e.attrs.Some? && (forall k :: k in e.attrs.value <==> k in h.names)
      && forall i :: 0 <= i < |h.names| ==>
           h.names[i] in e.attrs.value
           && e.attrs.value[h.names[i]] == ReadBack(GetColType(h.types[i]), Lookup(vals, h.names[i]), env)
  {
    hide GeoRecord, ReadSingleAttrSpec;
    AttrRoundTrip(h, vals, map[], env, midRest);
    GeoRoundTrip.GeoRoundTrip(geo, None, mifRest, env);
  }
}
