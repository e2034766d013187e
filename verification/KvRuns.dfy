/** Whole runs of the kvstore handler over one frame after another. */
module KvRuns {
  import opened Words
  import opened Packets
  import opened KvCache
  import opened KvStore

  /** A frame, and the keys that the map drops if the frame makes it write. */
  datatype Handled = Handled(p: seq<u8>, victims: set<u32>)

  /** The four sets after one call of the handler. */
  function After(c: Cache, f: Handled): Cache {
    if Accepted(f.p) then Step(c, RequestOf(f.p, f.victims)) else c
  }

  function AfterAll(frames: seq<Handled>): Cache {
    if frames == [] then EMPTY else After(AfterAll(Front(frames)), Last(frames))
  }

  /** The requests that the accepted frames make. */
  function Requests(frames: seq<Handled>): seq<Request> {
    if frames == [] then []
    else
      var front, f := Requests(Front(frames)), Last(frames);
      if Accepted(f.p) then front + [RequestOf(f.p, f.victims)] else front
  }

  /** At every write the map kept its contract. */
  ghost predicate MapOk(frames: seq<Handled>) {
    frames == [] ||
    (MapOk(Front(frames)) &&
     (Accepted(Last(frames).p) ==>
        StepOk(AfterAll(Front(frames)), RequestOf(Last(frames).p, Last(frames).victims))))
  }

  /** Handled frames are a run of requests, which is legal exactly when the map kept its contract throughout. */
  lemma {:induction false} FramesAreRun(frames: seq<Handled>)
    ensures AfterAll(frames) == Run(Requests(frames))
    ensures MapOk(frames) <==> Legal(Requests(frames))
  {
    hide Accepted, Step, StepOk, RequestOf;
    if frames != [] {
      var front, f := Front(frames), Last(frames);
      FramesAreRun(front);
      if Accepted(f.p) {
        RunNext(Requests(front), RequestOf(f.p, f.victims));
      }
    }
  }

  lemma RunNext(reqs: seq<Request>, r: Request)
    ensures Run(reqs + [r]) == Step(Run(reqs), r)
    ensures Legal(reqs + [r]) <==> Legal(reqs) && StepOk(Run(reqs), r)
  {
    hide Step, StepOk;
    assert Front(reqs + [r]) == reqs && Last(reqs + [r]) == r;
  }

  /** What the handler puts on the wire for a frame. */
  function ReplyTo(c: Cache, p: seq<u8>): seq<u8>
    requires Accepted(p)
  {
    Swapped(Answered(p, Lookup(c, p)))
  }

  /**
   * After any frames, accepted or not, the reply to a read carries the latest value that an accepted frame
   * wrote to its key, or the request's own content if the key was never written or has been dropped since.
   */
  lemma ReadAfterFrames(frames: seq<Handled>, p: seq<u8>)
    requires MapOk(frames) && Accepted(p) && Flag(p) == 0
    ensures var reqs := Requests(frames);
      && (Kept(reqs, Key(p)) ==> Key(p) in Latest(reqs))
      && Accepted(ReplyTo(AfterAll(frames), p)) && Key(ReplyTo(AfterAll(frames), p)) == Key(p)
      && Content(ReplyTo(AfterAll(frames), p)) == if Kept(reqs, Key(p)) then Latest(reqs)[Key(p)] else Content(p)
  {
    hide AfterAll, Requests, MapOk, Legal, Run, Kept, Latest, Accepted, Answered, Swapped;
    FramesAreRun(frames);
    ReadReplyIsLatest(Requests(frames), p);
  }

  /** Three calls of the method, after any others: a write, a rejected frame, and a read of the same key. */
  method WriteThenRead(store: Store, w: array<u8>, x: array<u8>, r: array<u8>, victims: set<u32>,
          ghost frames: seq<Handled>)
    requires store.State() == AfterAll(frames) && MapOk(frames)
    requires Accepted(w[..]) && Flag(w[..]) != 0 && Accepted(r[..]) && Flag(r[..]) == 0 && !Accepted(x[..])
    requires w != x && w != r && x != r && Key(w[..]) == Key(r[..])
    requires EvictionOk(Select(store.State(), Route(Key(w[..]))), Key(w[..]), victims)
    modifies store, w, x, r
    ensures Accepted(r[..]) && Content(r[..]) == old(Content(w[..]))
  {
    hide Accepted, Flag, Key, Content, Swapped, Answered, Put, Get, Route, AfterAll, MapOk;
    ghost var p, q := w[..], r[..];
    ghost var more := frames + [Handled(p, victims)];
    WriteNext(frames, p, victims);
    var action := store.Handle(w, victims);
    action := store.Handle(x, {});
    action := store.Handle(r, {});
    ReadAfterFrames(more, q);
  }

  lemma WriteNext(frames: seq<Handled>, p: seq<u8>, victims: set<u32>)
    requires MapOk(frames) && Accepted(p) && Flag(p) != 0
    requires EvictionOk(Select(AfterAll(frames), Route(Key(p))), Key(p), victims)
    ensures var more := frames + [Handled(p, victims)];
      && AfterAll(more) == Step(AfterAll(frames), RequestOf(p, victims)) && MapOk(more)
      && Kept(Requests(more), Key(p)) && Key(p) in Latest(Requests(more))
      && Latest(Requests(more))[Key(p)] == Content(p)
  {
    hide Accepted, Flag, Key, Content, Put, Route, EvictionOk, Select;
    var more := frames + [Handled(p, victims)];
    assert Front(more) == frames && Last(more) == Handled(p, victims);
    var reqs, r := Requests(frames), RequestOf(p, victims);
    assert Requests(more) == reqs + [r];
    assert Front(reqs + [r]) == reqs && Last(reqs + [r]) == r;
  }
}
