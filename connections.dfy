/** The client-side wrapper: a mapping over the service,
    whose item access forwards to the service and whose attribute access is
    routed by name.  The network connection is taken out: the wrapper holds
    the service instance (`conn.root`) directly. */
module Connections {
  import opened Objects
  import opened Services

  /** `k.startswith("_")`: names the wrapper keeps in its own attribute table,
      that is, exactly those that have "_" as a prefix. */
  function IsOwnAttribute(name: string): (own: bool)
    ensures own <==> "_" <= name
  {
    |name| > 0 && name[0] == '_'
  }

  class ConnectionWrapper<V> {
    /** The remote root object, reached without a transport. */
    const root: Service<V>
    /** The wrapper's own `__dict__` (apart from the connection itself). */
    var attributes: map<string, V>

    ghost predicate Valid()
      reads this, root, root.objects
    {
      root.Valid()
    }

    constructor (root: Service<V>)
      requires root.Valid()
      ensures Valid()
      ensures this.root == root && attributes == map[]
    {
      this.root := root;
      attributes := map[];
    }

    /** `w[key]`: the remote `get`. */
    method GetItem(key: string) returns (r: Result<V>)
      requires Valid()
      ensures r.Ok? <==> key in root.objects.contents.entries
      ensures r.Ok? ==> r.value == root.objects.contents.entries[key]
      ensures r.Err? ==> r.error == KeyError(key)
    {
      r := root.Get(key);
    }

    /** `w[key] = value`: the remote `set`; the wrapper's own table is untouched. */
    method SetItem(key: string, value: V)
      requires Valid()
      modifies root.objects
      ensures Valid()
      ensures root.objects.contents == Insert(old(root.objects.contents), key, value)
    {
      root.Set(key, value);
    }

    /** `iter(w)`: the remote key snapshot, every key once, in insertion order. */
    method Iter() returns (ks: seq<string>)
      requires Valid()
      ensures ks == root.objects.contents.order
      ensures Distinct(ks)
      ensures forall k :: k in ks <==> k in root.objects.contents.entries
    {
      ks := root.Keys();
    }

    /** `w.name` for a name the class does not define: an own attribute comes
        from the wrapper's table (KeyError when absent), anything else is the
        remote `get`. */
    method GetAttr(name: string) returns (r: Result<V>)
      requires Valid()
      ensures IsOwnAttribute(name) ==>
                r == (if name in attributes then Ok(attributes[name]) else Err(KeyError(name)))
      ensures !IsOwnAttribute(name) ==> r == Lookup(root.objects.contents, name)
    {
      if IsOwnAttribute(name) {
        r := if name in attributes then Ok(attributes[name]) else Err(KeyError(name));
      } else {
        r := GetItem(name);
      }
    }

    /** `w.name = value`: an own attribute is written into the wrapper's table
        and the dict is untouched; any other name becomes a remote `set` and
        the table is untouched. */
    method SetAttr(name: string, value: V)
      requires Valid()
      modifies this, root.objects
      ensures Valid()
      ensures IsOwnAttribute(name) ==>
                attributes == old(attributes)[name := value]
                && root.objects.contents == old(root.objects.contents)
      ensures !IsOwnAttribute(name) ==>
                attributes == old(attributes)
                && root.objects.contents == Insert(old(root.objects.contents), name, value)
    {
      if IsOwnAttribute(name) {
        attributes := attributes[name := value];
      } else {
        SetItem(name, value);
      }
    }
  }

  /** `w.name = value` followed by `w["name"]` yields `value` for every name
      that is not an own attribute; every other key reads as before. */
  method AttributeRoundTrip<V>(w: ConnectionWrapper<V>, name: string, value: V, other: string)
      returns (r: Result<V>, s: Result<V>)
    requires w.Valid()
    requires !IsOwnAttribute(name) && other != name
    modifies w, w.root.objects
    ensures r == Ok(value)
    ensures s == Lookup(old(w.root.objects.contents), other)
  {
    w.SetAttr(name, value);
    r := w.GetItem(name);
    s := w.GetItem(other);
  }

  /** An own attribute written with `w._name = value` reads back with
      `w._name` and never reaches the dict. */
  method OwnAttributeRoundTrip<V>(w: ConnectionWrapper<V>, name: string, value: V)
      returns (r: Result<V>)
    requires w.Valid()
    requires IsOwnAttribute(name)
    modifies w, w.root.objects
    ensures r == Ok(value)
    ensures w.root.objects.contents == old(w.root.objects.contents)
  {
    w.SetAttr(name, value);
    r := w.GetAttr(name);
  }
}
