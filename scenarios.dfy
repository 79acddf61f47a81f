/**
 * Sequences of operations as the application drives them, each followed by the
 * effects React runs after the resulting render, with what they guarantee.
 */
module Scenarios {
  import opened Wrappers
  import opened Auth
  import opened Captures
  import opened AppState

  /**
   * Logging out and logging back in yields an empty collection: logout erased the
   * captures key, the clear step emptied the list, and hydrating from an absent
   * key leaves the empty list as it is.
   */
  method LogoutThenLogin(s: Session, username: string, password: string, now: int) returns (ok: bool)
    requires s.Valid() && s.IsAuthenticated() && s.hydratedFor
    modifies s
    ensures s.Valid()
    ensures ok <==> FindDemoAccount(username, password).Some?
    ensures s.captures == [] && s.selected == None
    ensures CapturesKey !in s.storage
  {
    s.Logout();
    s.AfterRender();
    ok := s.Login(username, password, now);
    s.AfterRender();
  }

  /**
   * A successful capture while signed in is written through, so mounting a new
   * session over the same store brings back the same user and the same
   * collection, the new capture first.
   */
  method CaptureThenReload(s: Session, imageData: string, idClock: int, stampClock: int, localeText: string)
    returns (r: Option<Capture>, t: Session)
    requires s.Valid() && s.IsAuthenticated() && s.hydratedFor
    modifies s
    ensures fresh(t)
    ensures r == Some(NewCapture(idClock, stampClock, imageData, localeText))
    ensures s.captures == [r.value] + old(s.captures)
    ensures t.user == s.user && t.captures == s.captures && t.selected == None
  {
    r := s.CaptureScreen(Acquired(imageData), idClock, stampClock, localeText);
    s.AfterRender();
    t := new Session.Mount(s.storage);
    t.AfterRender();
  }

  /**
   * Deleting the last capture empties the collection but skips the write, so the
   * store still holds the one-entry list, and a reload brings the deleted
   * capture back.
   */
  method DeleteLastThenReload(s: Session, c: Capture) returns (t: Session)
    requires s.Valid() && s.IsAuthenticated() && s.hydratedFor
    requires s.captures == [c] && StoredCaptures(s.storage) == Some([c])
    modifies s
    ensures fresh(t)
    ensures s.captures == [] && StoredCaptures(s.storage) == Some([c])
    ensures t.user == s.user && t.captures == [c]
  {
    s.DeleteCapture(c.id);
    s.AfterRender();
    t := new Session.Mount(s.storage);
    t.AfterRender();
  }

  /** Selecting a capture and then deleting its id leaves nothing selected and no entry with that id. */
  method SelectThenDelete(s: Session, c: Capture)
    modifies s
    ensures s.selected == None
    ensures forall e :: e in s.captures ==> e.id != c.id
  {
    s.SelectCapture(Some(c));
    s.DeleteCapture(c.id);
  }
}
