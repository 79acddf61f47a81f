/**
 * The state shared by the authentication context and the screen-capture context:
 * the signed-in user, the capture collection, the selected capture and the
 * browser's key-value store, with the operations and effects that update them.
 */
module AppState {
  import opened Wrappers
  import opened Auth
  import opened Captures

  const UserKey := "screenspy_user"
  const CapturesKey := "screenspy_captures"

  /** A value in the key-value store, as the JSON parse of its text would see it. */
  datatype Stored = CaptureList(list: seq<Capture>) | UserRecord(user: User) | Unparseable

  /** The collection the store holds under the captures key, when that record parses as a list. */
  function StoredCaptures(storage: map<string, Stored>): (r: Option<seq<Capture>>)
    ensures r.Some? <==> CapturesKey in storage && storage[CapturesKey].CaptureList?
  {
    if CapturesKey in storage && storage[CapturesKey].CaptureList? then Some(storage[CapturesKey].list) else None
  }

  /**
   * Writing a list under the captures key and reading it back gives that list;
   * removing the key reads as nothing stored; other keys do not affect the read.
   */
  lemma StoredCapturesRoundTrip(storage: map<string, Stored>, cs: seq<Capture>, other: string, v: Stored)
    requires other != CapturesKey
    ensures StoredCaptures(storage[CapturesKey := CaptureList(cs)]) == Some(cs)
    ensures StoredCaptures(storage - {CapturesKey}) == None
    ensures StoredCaptures(storage[other := v]) == StoredCaptures(storage)
    ensures StoredCaptures(storage - {other}) == StoredCaptures(storage)
  {
  }

  class Session {
    var user: Option<User>
    var captures: seq<Capture>
    var selected: Option<Capture>
    var storage: map<string, Stored>
    /** The `isAuthenticated` value the hydrate-or-clear effect last ran with. */
    var hydratedFor: bool

    /** `isAuthenticated` is `!!user`: signed in exactly when a user is present. */
    predicate IsAuthenticated()
      reads this
      ensures IsAuthenticated() <==> user != None
      ensures IsAuthenticated() && Valid() ==> UserKey in storage && storage[UserKey].UserRecord?
    {
      user.Some?
    }

    /** A signed-in user is always the one recorded in the store, so a reload restores it. */
    ghost predicate Valid()
      reads this
    {
      user.Some? ==> UserKey in storage && storage[UserKey] == UserRecord(user.value)
    }

    /** The selection refers to an entry of the collection (the source does not enforce this). */
    ghost predicate SelectionInCaptures()
      reads this
    {
      selected.None? || selected.value in captures
    }

    /**
     * Mounting both providers over the store `initial`: the capture context starts
     * empty (its first hydrate-or-clear run sees no user and clears), then the
     * stored user is restored; a record that fails to parse is removed.
     */
    constructor Mount(initial: map<string, Stored>)
      ensures Valid()
      ensures captures == [] && selected == None && !hydratedFor
      ensures UserKey in initial && initial[UserKey].UserRecord? ==>
                user == Some(initial[UserKey].user) && storage == initial
      ensures UserKey in initial && initial[UserKey].Unparseable? ==>
                user == None && storage == initial - {UserKey}
      ensures (UserKey !in initial || initial[UserKey].CaptureList?) ==>
                user == None && storage == initial
    {
      captures := [];
      selected := None;
      hydratedFor := false;
      if UserKey in initial && initial[UserKey].UserRecord? {
        user := Some(initial[UserKey].user);
        storage := initial;
      } else if UserKey in initial && initial[UserKey].Unparseable? {
        user := None;
        storage := initial - {UserKey};
      } else {
        user := None;
        storage := initial;
      }
    }

    /** `login`: on a demo-account match, sign in under the account's own spelling and record the user. */
    method Login(username: string, password: string, now: int) returns (ok: bool)
      requires Valid()
      modifies this`user, this`storage
      ensures Valid()
      ensures ok <==> FindDemoAccount(username, password).Some?
      ensures ok ==>
                user == Some(User(FindDemoAccount(username, password).value.username, now))
                && storage == old(storage)[UserKey := UserRecord(user.value)]
      ensures !ok ==> user == old(user) && storage == old(storage)
    {
      var found := FindDemoAccount(username, password);
      if found.Some? {
        var record := User(found.value.username, now);
        user := Some(record);
        storage := storage[UserKey := UserRecord(record)];
        ok := true;
      } else {
        ok := false;
      }
    }

    /** `logout`: forget the user and erase both keys. */
    method Logout()
      modifies this`user, this`storage
      ensures Valid()
      ensures user == None
      ensures storage == old(storage) - {UserKey, CapturesKey}
    {
      user := None;
      storage := storage - {UserKey, CapturesKey};
    }

    /**
     * The hydrate-or-clear effect. Signed in: a stored list replaces the collection,
     * an absent or unparseable record leaves it as it was. Signed out: the
     * collection and the selection are cleared.
     */
    method HydrateOrClear()
      modifies this`captures, this`selected
      ensures IsAuthenticated() ==>
                selected == old(selected) && captures == StoredCaptures(storage).GetOr(old(captures))
      ensures !IsAuthenticated() ==> captures == [] && selected == None
    {
      if IsAuthenticated() {
        var stored := StoredCaptures(storage);
        if stored.Some? {
          captures := stored.value;
        }
      } else {
        captures := [];
        selected := None;
      }
    }

    /** The persist effect: write the whole collection, but only when signed in and the collection is non-empty. */
    method Persist()
      requires Valid()
      modifies this`storage
      ensures Valid()
      ensures IsAuthenticated() && |captures| > 0 ==> storage == old(storage)[CapturesKey := CaptureList(captures)]
      ensures !IsAuthenticated() || captures == [] ==> storage == old(storage)
    {
      if IsAuthenticated() && |captures| > 0 {
        storage := storage[CapturesKey := CaptureList(captures)];
      }
    }

    /**
     * The effects run after a state change: hydrate-or-clear only when
     * `isAuthenticated` differs from the value it last ran with, then persist.
     */
    method AfterRender()
      requires Valid()
      modifies this`captures, this`selected, this`storage, this`hydratedFor
      ensures Valid()
      ensures hydratedFor == IsAuthenticated()
      ensures old(hydratedFor) == IsAuthenticated() ==> captures == old(captures) && selected == old(selected)
      ensures old(hydratedFor) != IsAuthenticated() && IsAuthenticated() ==>
                selected == old(selected) && captures == StoredCaptures(old(storage)).GetOr(old(captures))
      ensures !IsAuthenticated() ==> storage == old(storage)
      ensures !IsAuthenticated() && old(hydratedFor) ==> captures == [] && selected == None
      ensures IsAuthenticated() && |captures| > 0 ==> storage == old(storage)[CapturesKey := CaptureList(captures)]
      ensures IsAuthenticated() && captures == [] ==> storage == old(storage)
    {
      if hydratedFor != IsAuthenticated() {
        HydrateOrClear();
        hydratedFor := IsAuthenticated();
      }
      Persist();
    }

    /**
     * The state update of `captureScreen`: a successful acquisition puts the new
     * record in front of the collection and returns it; a failed one returns
     * nothing and changes nothing.
     */
    method CaptureScreen(acquisition: Acquisition, idClock: int, stampClock: int, localeText: string)
      returns (r: Option<Capture>)
      modifies this`captures
      ensures acquisition.Acquired? ==>
                r == Some(NewCapture(idClock, stampClock, acquisition.imageData, localeText))
                && captures == [r.value] + old(captures)
      ensures acquisition.AcquisitionFailed? ==> r == None && captures == old(captures)
      ensures old(SelectionInCaptures()) ==> SelectionInCaptures()
    {
      match acquisition
      case Acquired(imageData) =>
        var c := NewCapture(idClock, stampClock, imageData, localeText);
        captures := [c] + captures;
        r := Some(c);
      case AcquisitionFailed(_) =>
        r := None;
    }

    /** `deleteCapture`: drop every entry with this id, and the selection if it has this id. */
    method DeleteCapture(id: string)
      modifies this`captures, this`selected
      ensures captures == RemoveById(old(captures), id)
      ensures old(selected).Some? && old(selected).value.id == id ==> selected == None
      ensures !(old(selected).Some? && old(selected).value.id == id) ==> selected == old(selected)
      ensures old(SelectionInCaptures()) ==> SelectionInCaptures()
      ensures selected.Some? ==> selected.value.id != id
    {
      captures := RemoveById(captures, id);
      if selected.Some? && selected.value.id == id {
        selected := None;
      }
    }

    /** `setSelectedCapture`: any record, or none; it is not checked against the collection. */
    method SelectCapture(c: Option<Capture>)
      modifies this`selected
      ensures selected == c
    {
      selected := c;
    }
  }
}
