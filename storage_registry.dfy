/** The registry of storage services: one array keyed by class name, one keyed
    by storage identifier, and the default storage. */
module Registry {
  import opened Wrappers
  import opened Storage

  /** The reasons a `StorageRegistryException` is thrown. */
  datatype RegistryError =
    | AlreadyRegistered     // "Tried to register storage that already is registered!"
    | DuplicateIdentifier   // "... has the same identifier as other, already registered storage!"
    | NotFound(key: string) // "Storage {key} has not been found!"

  /** How a lookup of the source, as written, ends: with the registry's own
      exception, or with PHP's TypeError when the declared return type
      `StorageInterface` receives the null of a missing array entry. */
  datatype AsWrittenFailure = Thrown(error: RegistryError) | TypeError

  /** `getStorageByIdentifier` / `getStorageByClass` as written: the guard
      `isset(...)` lacks its negation, so a present key throws "not found" and
      an absent key reads null, which the return type rejects. */
  function LookupAsWritten(m: map<string, StorageService>, key: string): (r: Result<StorageService, AsWrittenFailure>)
    ensures r.Failure?
    ensures key in m <==> r == Failure(Thrown(NotFound(key)))
  {
    if key in m then Failure(Thrown(NotFound(key))) else Failure(TypeError)
  }

  /** The finding: a registered identifier is reported as not found. */
  lemma AsWrittenLookupRejectsRegisteredStorage(m: map<string, StorageService>, key: string)
    requires key in m
    ensures LookupAsWritten(m, key) != Success(m[key])
    ensures LookupAsWritten(m, key) == Failure(Thrown(NotFound(key)))
  {
  }

  lemma DistinctSeqHasCardinality(keys: seq<string>, s: set<string>)
    requires forall i, j :: 0 <= i < j < |keys| ==> keys[i] != keys[j]
    requires forall k :: k in s <==> k in keys
    ensures |s| == |keys|
  {
    if keys != [] {
      var last := keys[|keys| - 1];
      var init := keys[..|keys| - 1];
      assert forall k :: k in s - {last} <==> k in init by {
        forall k ensures k in s - {last} <==> k in init {
          if k in init {
            var i :| 0 <= i < |init| && init[i] == k;
            assert keys[i] == k;
          }
          if k in keys && k != last {
            var i :| 0 <= i < |keys| && keys[i] == k;
            assert i < |keys| - 1 && init[i] == k;
          }
        }
      }
      DistinctSeqHasCardinality(init, s - {last});
    }
  }

  class StorageRegistry {
    /** The class-keyed array's keys, in insertion order. */
    var classKeys: seq<string>
    var byClass: map<string, StorageService>
    var byIdentifier: map<string, StorageService>
    var defaultStorage: Option<StorageService>

    /** Every storage is filed under its own class name and identifier; each
        identifier entry has its class entry (the converse can fail, see
        `RegisterStorage`); the default's class is registered. */
    ghost predicate Valid()
      reads this
    {
      && (forall i, j :: 0 <= i < j < |classKeys| ==> classKeys[i] != classKeys[j])
      && (forall k :: k in byClass <==> k in classKeys)
      && (forall k :: k in byClass ==> byClass[k].ClassName() == k)
      && (forall id :: id in byIdentifier ==> byIdentifier[id].StorageIdentifier() == id)
      && (forall id :: id in byIdentifier ==>
            byIdentifier[id].ClassName() in byClass && byClass[byIdentifier[id].ClassName()] == byIdentifier[id])
      && (defaultStorage.Some? ==> defaultStorage.value.ClassName() in byClass)
    }

    constructor ()
      ensures Valid()
      ensures classKeys == [] && byClass == map[] && byIdentifier == map[] && defaultStorage == None
    {
      classKeys, byClass, byIdentifier, defaultStorage := [], map[], map[], None;
    }

    /** `registerStorage`: a registered class fails with nothing changed. The
        class entry is written before the identifier is checked, so an
        identifier collision fails with the class entry already in place;
        otherwise one entry is added to each array. The default is never
        touched. */
    method RegisterStorage(storage: StorageService) returns (r: Outcome<RegistryError>)
      requires Valid()
      modifies this
      ensures Valid()
      ensures defaultStorage == old(defaultStorage)
      ensures storage.ClassName() in old(byClass) ==> r == Fail(AlreadyRegistered) && unchanged(this)
      ensures storage.ClassName() !in old(byClass) ==>
        && classKeys == old(classKeys) + [storage.ClassName()]
        && byClass == old(byClass)[storage.ClassName() := storage]
        && (storage.StorageIdentifier() in old(byIdentifier) ==>
              r == Fail(DuplicateIdentifier) && byIdentifier == old(byIdentifier))
        && (storage.StorageIdentifier() !in old(byIdentifier) ==>
              r == Pass && byIdentifier == old(byIdentifier)[storage.StorageIdentifier() := storage])
    {
      var cls := storage.ClassName();
      if cls in byClass {
        return Fail(AlreadyRegistered);
      }
      byClass := byClass[cls := storage];
      classKeys := classKeys + [cls];
      var id := storage.StorageIdentifier();
      if id in byIdentifier {
        return Fail(DuplicateIdentifier);
      }
      byIdentifier := byIdentifier[id := storage];
      r := Pass;
    }

    /** `getStorageByIdentifier` with the not-found check the message states:
        the stored entry when present, `NotFound` otherwise. */
    method GetStorageByIdentifier(identifier: string) returns (r: Result<StorageService, RegistryError>)
      requires Valid()
      ensures r.Success? <==> identifier in byIdentifier
      ensures r.Success? ==> r.value == byIdentifier[identifier] && r.value.StorageIdentifier() == identifier
      ensures r.Failure? ==> r.error == NotFound(identifier)
    {
      if identifier !in byIdentifier {
        return Failure(NotFound(identifier));
      }
      r := Success(byIdentifier[identifier]);
    }

    /** `getStorageByClass` with the intended not-found check. */
    method GetStorageByClass(cls: string) returns (r: Result<StorageService, RegistryError>)
      requires Valid()
      ensures r.Success? <==> cls in byClass
      ensures r.Success? ==> r.value == byClass[cls] && r.value.ClassName() == cls
      ensures r.Failure? ==> r.error == NotFound(cls)
    {
      if cls !in byClass {
        return Failure(NotFound(cls));
      }
      r := Success(byClass[cls]);
    }

    /** `getAllStorageServices`: the class-keyed values in insertion order,
        one per registered class. */
    method GetAllStorageServices() returns (all: seq<StorageService>)
      requires Valid()
      ensures |all| == |classKeys| == |byClass|
      ensures forall i :: 0 <= i < |all| ==> all[i] == byClass[classKeys[i]]
      ensures forall s :: s in all <==> s in byClass.Values
    {
      all := [];
      for i := 0 to |classKeys|
        invariant |all| == i
        invariant forall j :: 0 <= j < i ==> all[j] == byClass[classKeys[j]]
      {
        all := all + [byClass[classKeys[i]]];
      }
      DistinctSeqHasCardinality(classKeys, byClass.Keys);
      forall s | s in byClass.Values ensures s in all {
        var k :| k in byClass && byClass[k] == s;
        var i :| 0 <= i < |classKeys| && classKeys[i] == k;
        assert all[i] == s;
      }
    }

    /** `hasStorage`: decided by the class name alone, so any instance of a
        registered class counts as present. */
    predicate HasStorage(storage: StorageService)
      requires Valid()
      reads this
      ensures HasStorage(storage) <==>
        exists s :: s in byClass.Values && s.ClassName() == storage.ClassName()
    {
      var cls := storage.ClassName();
      assert cls in byClass ==> byClass[cls] in byClass.Values;
      cls in byClass
    }

    /** `setDefaultStorage`: registers the storage only when its class is not
        yet registered, then makes it the default; a failed registration
        leaves the default as it was. */
    method SetDefaultStorage(storage: StorageService) returns (r: Outcome<RegistryError>)
      requires Valid()
      modifies this
      ensures Valid()
      ensures old(HasStorage(storage)) ==>
        && r == Pass && defaultStorage == Some(storage)
        && classKeys == old(classKeys) && byClass == old(byClass) && byIdentifier == old(byIdentifier)
      ensures !old(HasStorage(storage)) ==>
        && classKeys == old(classKeys) + [storage.ClassName()]
        && byClass == old(byClass)[storage.ClassName() := storage]
        && (storage.StorageIdentifier() in old(byIdentifier) ==>
              r == Fail(DuplicateIdentifier) && byIdentifier == old(byIdentifier)
              && defaultStorage == old(defaultStorage))
        && (storage.StorageIdentifier() !in old(byIdentifier) ==>
              r == Pass && byIdentifier == old(byIdentifier)[storage.StorageIdentifier() := storage]
              && defaultStorage == Some(storage))
      ensures r == Pass ==> HasStorage(storage) && defaultStorage == Some(storage)
    {
      if !HasStorage(storage) {
        r := RegisterStorage(storage);
        if r.Fail? {
          return;
        }
      }
      defaultStorage := Some(storage);
      r := Pass;
    }

    /** `getDefaultStorage`: the last storage a successful `setDefaultStorage`
        installed, `None` (a null the return type rejects) before any. */
    method GetDefaultStorage() returns (r: Option<StorageService>)
      requires Valid()
      ensures r == defaultStorage
      ensures r.Some? ==> r.value.ClassName() in byClass
    {
      r := defaultStorage;
    }
  }

  /** Registering one storage twice fails the second time and changes nothing. */
  method RegisterTwice(registry: StorageRegistry, storage: StorageService)
    returns (first: Outcome<RegistryError>, second: Outcome<RegistryError>)
    requires registry.Valid()
    modifies registry
    ensures first == Pass ==> second == Fail(AlreadyRegistered)
    ensures second == Fail(AlreadyRegistered)
  {
    first := registry.RegisterStorage(storage);
    second := registry.RegisterStorage(storage);
  }

  /** Two storages of different classes that share an identifier: the second
      registration fails, yet its class now counts as registered, and a later
      attempt to make it the default succeeds without it entering the
      identifier array. */
  method SharedIdentifier(registry: StorageRegistry, s1: StorageService, s2: StorageService)
    returns (first: Outcome<RegistryError>, second: Outcome<RegistryError>, asDefault: Outcome<RegistryError>)
    requires registry.Valid() && registry.classKeys == []
    requires registry.byIdentifier == map[]
    requires s1.ClassName() != s2.ClassName() && s1.StorageIdentifier() == s2.StorageIdentifier()
    modifies registry
    ensures registry.Valid()
    ensures first == Pass && second == Fail(DuplicateIdentifier)
    ensures asDefault == Pass && registry.defaultStorage == Some(s2)
    ensures registry.byIdentifier == map[s1.StorageIdentifier() := s1]
    ensures registry.HasStorage(s2) && registry.byClass[s2.ClassName()] == s2
  {
    first := registry.RegisterStorage(s1);
    second := registry.RegisterStorage(s2);
    asDefault := registry.SetDefaultStorage(s2);
  }

  /** Making a never-registered storage the default on an empty registry
      registers it and installs it. */
  method DefaultBootstrap(registry: StorageRegistry, storage: StorageService)
    returns (r: Outcome<RegistryError>, found: Option<StorageService>)
    requires registry.Valid() && registry.byClass == map[] && registry.byIdentifier == map[]
    modifies registry
    ensures registry.Valid()
    ensures r == Pass && registry.HasStorage(storage) && found == Some(storage)
  {
    r := registry.SetDefaultStorage(storage);
    found := registry.GetDefaultStorage();
  }
}
