/**
 * The capture record and the pure list computations of the capture context:
 * the record a successful acquisition produces, and the `filter` by id that
 * deletion applies to the collection.
 */
module Captures {
  import DecimalText

  /** One screenshot: `CapturedScreen` of the source. */
  datatype Capture = Capture(id: string, timestamp: int, imageData: string, name: string)

  /** Why an acquisition produced no image: the user declined the screen share, or no 2D drawing context. */
  datatype AcquisitionError = Denied | NoCanvasContext

  /** The outcome of the browser-side acquisition, which the model takes as an input. */
  datatype Acquisition = Acquired(imageData: string) | AcquisitionFailed(error: AcquisitionError)

  /**
   * The record built after a successful acquisition. The source reads the clock
   * twice, once for the id and once for the timestamp, so these are two inputs;
   * `localeText` stands for `new Date().toLocaleString()`.
   */
  function NewCapture(idClock: int, stampClock: int, imageData: string, localeText: string): (r: Capture)
    ensures idClock >= 0 ==> DecimalText.AllDigits(r.id) && DecimalText.Value(r.id) == idClock
    ensures r.timestamp == stampClock && r.imageData == imageData
    ensures |r.name| == 11 + |localeText| && r.name[..11] == "Screenshot " && r.name[11..] == localeText
  {
    Capture(DecimalText.FromInt(idClock), stampClock, imageData, "Screenshot " + localeText)
  }

  /** `cs.filter(cap => cap.id !== id)`: the entries whose id differs from `id`, in their original order. */
  function RemoveById(cs: seq<Capture>, id: string): (r: seq<Capture>)
    ensures forall c :: c in r <==> c in cs && c.id != id
    ensures |r| <= |cs|
  {
    if cs == [] then []
    else if cs[0].id == id then RemoveById(cs[1..], id)
    else [cs[0]] + RemoveById(cs[1..], id)
  }

  /** Filtering distributes over concatenation: the survivors keep their relative order. */
  lemma {:induction false} RemoveByIdAppend(a: seq<Capture>, b: seq<Capture>, id: string)
    ensures RemoveById(a + b, id) == RemoveById(a, id) + RemoveById(b, id)
    decreases |a|
  {
    if a == [] {
      assert a + b == b;
    } else {
      assert (a + b)[1..] == a[1..] + b;
      RemoveByIdAppend(a[1..], b, id);
    }
  }

  /** Every entry carrying `id` is removed, every other entry keeps its multiplicity. */
  lemma {:induction false} RemoveByIdCount(cs: seq<Capture>, id: string, c: Capture)
    ensures multiset(RemoveById(cs, id))[c] == if c.id == id then 0 else multiset(cs)[c]
    decreases |cs|
  {
    if cs != [] {
      assert cs == [cs[0]] + cs[1..];
      RemoveByIdCount(cs[1..], id, c);
    }
  }

  /** Deleting an id changes the list exactly when some entry carries that id; an absent id is a no-op. */
  lemma {:induction false} RemoveByIdUnchangedIff(cs: seq<Capture>, id: string)
    ensures RemoveById(cs, id) == cs <==> forall c :: c in cs ==> c.id != id
    decreases |cs|
  {
    if cs != [] {
      RemoveByIdUnchangedIff(cs[1..], id);
      if forall c :: c in cs ==> c.id != id {
        assert cs == [cs[0]] + cs[1..];
      }
    }
  }

  /** Deleting the same id twice is the same as deleting it once. */
  lemma RemoveByIdIdempotent(cs: seq<Capture>, id: string)
    ensures RemoveById(RemoveById(cs, id), id) == RemoveById(cs, id)
  {
  }

  /** Deletions of two ids commute. */
  lemma {:induction false} RemoveByIdCommute(cs: seq<Capture>, a: string, b: string)
    ensures RemoveById(RemoveById(cs, a), b) == RemoveById(RemoveById(cs, b), a)
    decreases |cs|
  {
    if cs != [] {
      RemoveByIdCommute(cs[1..], a, b);
    }
  }
}
