/** The remotely exposed service: `provide_objects` binds a shared dict (and
    optionally a discovery alias) into a service class; each instance forwards
    `get`, `set`, `len` and `keys` to that one dict. */
module Services {
  import opened Objects

  /** The name `launch` registers a service under when none is given. */
  const DefaultName := "unnamed"

  /** The per-binding service class that `provide_objects` builds: the dict it
      attaches and its `ALIASES` attribute, `None` when left to the inherited
      default. */
  datatype ServiceClass<V> = ServiceClass(objects: SharedDict<V>, aliases: Option<seq<string>>)

  /** `provide_objects(Service, objects, name)`. */
  function ProvideObjects<V>(objects: SharedDict<V>, name: Option<string>): (c: ServiceClass<V>)
    ensures c.objects == objects
    ensures c.aliases.Some? <==> name.Some?
    ensures name.Some? ==> c.aliases.value == [name.value]
  {
    ServiceClass(objects, if name.Some? then Some([name.value]) else None)
  }

  /** The service class that `launch` serves: the name is passed on to
      `provide_objects` as given, "unnamed" when the caller gives none. */
  function Launch<V>(objects: SharedDict<V>, name: Option<string> := Some(DefaultName)): (c: ServiceClass<V>)
    ensures c == ProvideObjects(objects, name)
    ensures c.objects == objects
    ensures name.Some? ==> c.aliases == Some([name.value])
    ensures name.None? ==> c.aliases.None?
  {
    ProvideObjects(objects, name)
  }

  /** A `launch` call that gives no name registers the alias "unnamed". */
  lemma LaunchDefaultAlias<V>(objects: SharedDict<V>)
    ensures Launch(objects).aliases == Some(["unnamed"])
  {
  }

  /** An instance of the service class, as the server creates one per
      connection; every instance shares the class's dict. */
  class Service<V> {
    const objects: SharedDict<V>
    const aliases: Option<seq<string>>

    ghost predicate Valid()
      reads this, objects
    {
      objects.Valid()
    }

    constructor (cls: ServiceClass<V>)
      requires cls.objects.Valid()
      ensures Valid()
      ensures objects == cls.objects && aliases == cls.aliases
    {
      objects := cls.objects;
      aliases := cls.aliases;
    }

    /** `exposed_get`: the stored value, or KeyError for an absent key. */
    method Get(k: string) returns (r: Result<V>)
      requires Valid()
      ensures r.Ok? <==> k in objects.contents.entries
      ensures r.Ok? ==> r.value == objects.contents.entries[k]
      ensures r.Err? ==> r.error == KeyError(k)
    {
      r := Lookup(objects.contents, k);
    }

    /** `exposed_set`: insert or overwrite in the shared dict, nothing else changes. */
    method Set(k: string, v: V)
      requires Valid()
      modifies objects
      ensures Valid()
      ensures objects.contents == Insert(old(objects.contents), k, v)
    {
      objects.contents := Insert(objects.contents, k, v);
    }

    /** `exposed_len`: the number of entries, which is the number of keys reported. */
    method Len() returns (n: nat)
      requires Valid()
      ensures n == |objects.contents.entries|
      ensures n == |objects.contents.order|
    {
      n := Size(objects.contents);
    }

    /** `exposed_keys`: every key exactly once, in insertion order. */
    method Keys() returns (ks: seq<string>)
      requires Valid()
      ensures forall k :: k in ks <==> k in objects.contents.entries
      ensures Distinct(ks)
      ensures |ks| == |objects.contents.entries|
      ensures ks == objects.contents.order
    {
      ks := objects.contents.order;
      SizeIsKeyCount(objects.contents);
    }
  }

  /** The worked scenario: a store holding only "learning_rate" is read, overwritten,
      read again, counted, and asked for a missing key. */
  method LearningRateScenario<V>(initial: V, updated: V)
  {
    var objects := new SharedDict(Insert(Empty(), "learning_rate", initial));
    var service := new Service(Launch(objects, Some("hp")));
    var r := service.Get("learning_rate");
    assert r == Ok(initial);
    service.Set("learning_rate", updated);
    r := service.Get("learning_rate");
    assert r == Ok(updated);
    var n := service.Len();
    assert n == 1;
    r := service.Get("missing");
    assert r == Err(KeyError("missing"));
  }
}
