/**
 * The client's key-value credential store (frontend/src/utils/storage.js). The backing
 * is picked once, from the platform: browser storage on web, the secure store on native.
 * A backing that fails is a `fault` argument of each call. On web the failure is caught
 * (a write or delete does nothing, a read gives null); on native it reaches the caller.
 */
module Storage {
  import opened Wrappers

  /** The one key the application stores. */
  const TokenKey: string := "token"

  /** A failure of the native secure store, passed on to the caller. */
  datatype StorageError = StorageFailure

  /** The value stored under `key` in `entries`, or null. */
  function Lookup(entries: map<string, string>, key: string): (r: Option<string>)
  {
    if key in entries then Some(entries[key]) else None
  }

  /** A write that did not fail can be read back. */
  lemma LookupAfterSet(entries: map<string, string>, key: string, value: string, other: string)
    ensures Lookup(entries[key := value], key) == Some(value)
    ensures other != key ==> Lookup(entries[key := value], other) == Lookup(entries, other)
  {
  }

  /** After a delete that did not fail the key reads as null. */
  lemma LookupAfterDelete(entries: map<string, string>, key: string, other: string)
    ensures Lookup(entries - {key}, key) == None
    ensures other != key ==> Lookup(entries - {key}, other) == Lookup(entries, other)
  {
  }

  class CredentialStore {
    /** Whether the backing is browser storage (else the native secure store); fixed at load. */
    const isWeb: bool
    /** What the backing holds. */
    var entries: map<string, string>

    /** A store over a backing that already holds `existing` (it outlives the process). */
    constructor (isWeb: bool, existing: map<string, string>)
      ensures this.isWeb == isWeb && entries == existing
    {
      this.isWeb := isWeb;
      entries := existing;
    }

    /** setItem: store `value` under `key`. */
    method SetItem(key: string, value: string, fault: bool) returns (r: Result<(), StorageError>)
      modifies this`entries
      ensures !fault ==> r.Ok? && entries == old(entries)[key := value]
      ensures fault ==> entries == old(entries)
      ensures fault ==> (r.Ok? <==> isWeb)
      ensures r.Err? ==> r.error == StorageFailure
    {
      if isWeb {
        if !fault {
          entries := entries[key := value];
        }
        r := Ok(());
      } else {
        if fault {
          return Err(StorageFailure);
        }
        entries := entries[key := value];
        r := Ok(());
      }
    }

    /** getItem: the value under `key`, or null. */
    method GetItem(key: string, fault: bool) returns (r: Result<Option<string>, StorageError>)
      ensures !fault ==> r == Ok(Lookup(entries, key))
      ensures fault && isWeb ==> r == Ok(None)
      ensures fault && !isWeb ==> r.Err?
      ensures r.Err? ==> r.error == StorageFailure
    {
      if isWeb {
        if fault {
          return Ok(None);
        }
        r := Ok(Lookup(entries, key));
      } else {
        if fault {
          return Err(StorageFailure);
        }
        r := Ok(Lookup(entries, key));
      }
    }

    /** deleteItem: remove `key`. */
    method DeleteItem(key: string, fault: bool) returns (r: Result<(), StorageError>)
      modifies this`entries
      ensures !fault ==> r.Ok? && entries == old(entries) - {key}
      ensures fault ==> entries == old(entries)
      ensures fault ==> (r.Ok? <==> isWeb)
      ensures r.Err? ==> r.error == StorageFailure
    {
      if isWeb {
        if !fault {
          entries := entries - {key};
        }
        r := Ok(());
      } else {
        if fault {
          return Err(StorageFailure);
        }
        entries := entries - {key};
        r := Ok(());
      }
    }
  }
}
