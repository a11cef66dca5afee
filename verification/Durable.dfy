/** Model of src/state.go: what is kept per key, what is written to disk, and what a save that
    fails may leave behind. */
module Durable {
  import opened Basics
  import opened Failures

  /** The value of one key's record, as it is serialized. */
  datatype KeyRecord = KeyRecord(
    exhaustedUntil: Time, suspendedUntil: Time, rateLimitedUntil: Time, transientUntil: Time,
    ignoreBefore: Time, lastFailure: Classification, lastFailureAt: Time, lastSuccessAt: Time,
    success: Counter, failed: Counter)

  const FreshKey := KeyRecord(0, 0, 0, 0, 0, NoClassification, 0, 0, 0, 0)

  /** The record of one key, which the scheduler updates in place. */
  class KeyState {
    var exhaustedUntil: Time
    var suspendedUntil: Time
    var rateLimitedUntil: Time
    var transientUntil: Time
    var ignoreBefore: Time
    var lastFailure: Classification
    var lastFailureAt: Time
    var lastSuccessAt: Time
    var success: Counter
    var failed: Counter

    function Record(): KeyRecord
      reads this
    {
      KeyRecord(exhaustedUntil, suspendedUntil, rateLimitedUntil, transientUntil, ignoreBefore,
                lastFailure, lastFailureAt, lastSuccessAt, success, failed)
    }

    constructor (r: KeyRecord)
      ensures Record() == r
    {
      exhaustedUntil, suspendedUntil := r.exhaustedUntil, r.suspendedUntil;
      rateLimitedUntil, transientUntil := r.rateLimitedUntil, r.transientUntil;
      ignoreBefore, lastFailure, lastFailureAt := r.ignoreBefore, r.lastFailure, r.lastFailureAt;
      lastSuccessAt, success, failed := r.lastSuccessAt, r.success, r.failed;
    }
  }

  datatype Persisted = Persisted(version: int, current: string, cursor: string, keys: map<string, KeyRecord>)

  const EmptyState := Persisted(1, "", "", map[])

  const KEY_LIMIT := 10000

  /** What the state file holds. `Garbage` is anything that does not parse as a state. */
  datatype Contents = Missing | Garbage | Written(state: Persisted)

  /** The checks of `decodeState`. */
  predicate Decodable(s: Persisted) {
    && s.version == 1
    && |s.keys| <= KEY_LIMIT
    && (s.current != "" ==> IsHash(s.current))
    && (s.cursor != "" ==> IsHash(s.cursor))
    && forall id :: id in s.keys ==> IsHash(id)
  }

  /** `Load`: a missing file is an empty state; anything unreadable or invalid is an error.
      `readable` is false when the file cannot be opened or read, or exceeds 8 MiB. */
  function Load(c: Contents, readable: bool): Option<Persisted> {
    match c
    case Missing => Some(EmptyState)
    case Garbage => None
    case Written(s) => if readable && Decodable(s) then Some(s) else None
  }

  /** A key identity: 64 lower-case hex digits. */
  predicate IsIdentity(s: string) {
    |s| == 64 && forall i :: 0 <= i < 64 ==> ('0' <= s[i] && s[i] <= '9') || ('a' <= s[i] && s[i] <= 'f')
  }

  /** What loads, in the fields of the file: its own state if that has version 1, at most 10000 keys, and only
      key identities for its keys, its current account and its cursor. */
  lemma LoadExactly(s: Persisted)
    ensures Load(Written(s), true).Some? <==>
            && s.version == 1 && |s.keys| <= 10000
            && (s.current == "" || IsIdentity(s.current)) && (s.cursor == "" || IsIdentity(s.cursor))
            && forall id :: id in s.keys ==> IsIdentity(id)
    ensures Load(Written(s), true).Some? ==> Load(Written(s), true).value == s
    ensures Load(Written(s), false) == None && Load(Garbage, true) == None
    ensures Load(Missing, false) == Some(Persisted(1, "", "", map[]))
  {
  }

  /** `decodeState`, as the program checks what it has parsed. */
  method Decode(s: Persisted) returns (r: Option<Persisted>)
    ensures r == if Decodable(s) then Some(s) else None
  {
    if s.version != 1 || |s.keys| > KEY_LIMIT {
      return None;
    }
    var ids := [s.current, s.cursor];
    for i := 0 to 2
      invariant forall j :: 0 <= j < i ==> ids[j] == "" || IsHash(ids[j])
    {
      if ids[i] != "" && !IsHash(ids[i]) {
        assert ids[i] == s.current || ids[i] == s.cursor;
        return None;
      }
    }
    assert ids[0] == s.current && ids[1] == s.cursor;
    var todo := s.keys.Keys;
    while todo != {}
      invariant todo <= s.keys.Keys
      invariant forall id :: id in s.keys.Keys - todo ==> IsHash(id)
      decreases |todo|
    {
      var id :| id in todo;
      if !IsHash(id) {
        return None;
      }
      todo := todo - {id};
    }
    return Some(s);
  }

  /** The step of `fileStore.Save` that fails, if any, in the order of the steps. */
  datatype SaveFault = Flawless | Encode | CreateTemp | Chmod | WriteTemp | SyncTemp | CloseTemp | Rename | OpenDirectory | SyncDirectory

  /** The rename has happened, so the file holds the new state. */
  predicate Published(f: SaveFault) {
    f in {Flawless, OpenDirectory, SyncDirectory}
  }

  function AfterSave(old_: Contents, s: Persisted, f: SaveFault): Contents {
    if Published(f) then Written(s) else old_
  }

  /** No save, however it fails, makes a file unloadable that was loadable before: what is read back is
      the new state if it was published, and the old one otherwise. */
  lemma SavedFileLoads(old_: Contents, s: Persisted, f: SaveFault)
    requires Load(old_, true).Some? && Decodable(s)
    ensures Load(AfterSave(old_, s, f), true) == if Published(f) then Some(s) else Load(old_, true)
  {
  }

  /** The state directory: the state file, and the temporary file while a save is under way. */
  class Store {
    var contents: Contents
    var temporary: Contents

    constructor (c: Contents)
      ensures contents == c
    {
      contents, temporary := c, Missing;
    }

    /** `Load`: a missing file stands for the empty state; a file that is there yields its own state,
        exactly when it can be read and passes the checks. */
    method Read(readable: bool) returns (r: Option<Persisted>)
      ensures contents.Missing? ==> r == Some(EmptyState)
      ensures !contents.Missing? ==> (r.Some? <==> readable && contents.Written? && Decodable(contents.state))
      ensures !contents.Missing? && r.Some? ==> contents == Written(r.value)
    {
      if contents.Missing? {
        return Some(EmptyState);
      }
      if !readable || contents.Garbage? {
        return None;
      }
      r := Decode(contents.state);
    }

    /** The ordered effects of a save: the temporary file is created empty, filled and synced, and then
        replaces the state file in one rename; the directory is synced last. `trail` is what the
        state file holds after each effect, and so what a crash in the middle of the save leaves: the
        old contents or the whole new state. A save can fail with the new state in place. */
    method Save(s: Persisted, f: SaveFault) returns (ok: bool, ghost trail: seq<Contents>)
      modifies this
      ensures ok <==> f == Flawless
      ensures contents == AfterSave(old(contents), s, f)
      ensures contents == if f in {Flawless, OpenDirectory, SyncDirectory} then Written(s) else old(contents)
      ensures forall c :: c in trail ==> c == old(contents) || c == Written(s)
      ensures trail != [] && trail[|trail| - 1] == contents
    {
      trail := [contents];
      if f == Encode || f == CreateTemp {
        return false, trail;
      }
      temporary := Garbage;
      trail := trail + [contents];
      if f == Chmod || f == WriteTemp {
        temporary := Missing;
        return false, trail;
      }
      temporary := Written(s);
      trail := trail + [contents];
      if f == SyncTemp || f == CloseTemp || f == Rename {
        temporary := Missing;
        return false, trail;
      }
      contents, temporary := temporary, Missing;
      trail := trail + [contents];
      return f == Flawless, trail;
    }
  }
}
