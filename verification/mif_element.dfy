/** MifElement: one feature of a MIF/MID pair, a geometry (possibly null)
    and its attribute map from lower-cased column names to AttrValues.  The
    map holds its values by value, so no two keys share an AttrValue. */
module MifElements {
  import opened Wrappers
  import opened Foreign
  import opened AttrValues

  /** No AttrValue object is stored under two keys. */
  predicate Unshared(m: map<string, AttrValue>) {
    forall k1, k2 :: k1 in m && k2 in m && k1 != k2 ==> m[k1] != m[k2]
  }

  /** The states of the values of a map of AttrValues. */
  function Views(m: map<string, AttrValue>): (r: map<string, AttrState>)
    reads m.Values
    ensures r.Keys == m.Keys
    ensures forall k :: k in m ==> r[k] == m[k].View()
  {
    map k | k in m :: m[k].View()
  }

  /** Helper: the views after a new key goes in. */
  lemma ViewsInsert(m: map<string, AttrValue>, key: string, v: AttrValue)
    requires key !in m
    ensures Views(m[key := v]) == Views(m)[key := v.View()]
  {
  }

  class MifElement {
    var geo: Option<Geometry>
    var attrs: map<string, AttrValue>

    predicate Valid()
      reads this
    {
      Unshared(attrs)
    }

    /** The attribute values as seen through the map. */
    function Values(): map<string, AttrState>
      reads this, attrs.Values
    {
      Views(attrs)
    }

    /** MifElement(): a null geometry and no attributes. */
    constructor ()
      ensures Valid() && geo == None && attrs == map[]
    {
      geo := None;
      attrs := map[];
    }

    method SetGeo(g: Option<Geometry>)
      modifies this
      ensures geo == g && attrs == old(attrs) && Values() == old(Values())
    {
      geo := g;
    }

    /** setAttrsMap(AttrMap&&): the element takes over the given map. */
    method SetAttrsMap(m: map<string, AttrValue>)
      requires Unshared(m)
      modifies this
      ensures Valid() && attrs == m && geo == old(geo) && Values() == old(Views(m))
    {
      attrs := m;
    }

    /** hasColumn (mif_element.cpp:5-7). */
    predicate HasColumn(lowerName: string)
      reads this
    {
      lowerName in attrs
    }

    /** getAttr(name): a reference to the stored value; map::at throws
        out_of_range for an unknown name. */
    function GetAttr(lowerName: string): (r: Option<AttrValue>)
      reads this
      ensures r.Some? <==> HasColumn(lowerName)
      ensures r.Some? ==> r.value == attrs[lowerName]
    {
      if lowerName in attrs then Some(attrs[lowerName]) else None
    }

    /** getAttr(name, out): copies the stored value into `out` when the name
        is known; leaves `out` alone otherwise. */
    method GetAttrInto(lowerName: string, out: AttrValue) returns (found: bool)
      modifies out
      ensures found <==> lowerName in attrs
      ensures found ==> out.View() == old(attrs[lowerName].View())
      ensures !found ==> out.View() == old(out.View())
    {
      if lowerName !in attrs {
        return false;
      }
      out.AssignFrom(attrs[lowerName]);
      return true;
    }

    /** addOrUpdateAttr (mif_element.cpp:21-23): `attrs_map_[name] = val`
        assigns into the stored value, or into a new one for a new name;
        every other attribute stays as it was. */
    method AddOrUpdateAttr(lowerName: string, val: AttrValue)
      requires Valid()
      modifies this, attrs.Values
      ensures Valid() && geo == old(geo)
      ensures attrs.Keys == old(attrs.Keys) + {lowerName}
      ensures Values() == old(Values())[lowerName := old(val.View())]
    {
      if lowerName in attrs {
        UpdateAttr(lowerName, val);
      } else {
        InsertAttr(lowerName, val);
      }
    }

    /** addOrUpdateAttr for a known name: the stored value takes val's
        content. */
    method UpdateAttr(lowerName: string, val: AttrValue)
      requires Valid() && lowerName in attrs
      modifies attrs[lowerName]
      ensures attrs == old(attrs) && geo == old(geo)
      ensures Values() == old(Values())[lowerName := old(val.View())]
    {
      var target := attrs[lowerName];
      target.AssignFrom(val);
      assert forall k :: k in attrs && k != lowerName ==> attrs[k] != target;
    }

    /** addOrUpdateAttr for a new name: a copy of val goes in. */
    method InsertAttr(lowerName: string, val: AttrValue)
      requires Valid() && lowerName !in attrs
      modifies this
      ensures Valid() && geo == old(geo)
      ensures attrs.Keys == old(attrs.Keys) + {lowerName}
      ensures Values() == old(Values())[lowerName := old(val.View())]
    {
      var copy := new AttrValue.Copy(val);
      ViewsInsert(attrs, lowerName, copy);
      attrs := attrs[lowerName := copy];
    }
  }
}
