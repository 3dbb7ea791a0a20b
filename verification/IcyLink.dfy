/** A listener of one server is the source of another: what goes in at one end comes out at the other. */
module IcyLink {
  import opened IcyStream
  import opened IcyReader
  import IcyWriter

  /**
   Whatever the writer's short writes and the reader's fragments and frame boundaries were,
   the reader has delivered, or keeps for later, a first part of exactly the audio the writer
   consumed, and has learned a first part of the metadata blocks that were sent; it has all
   of both when it has received all that is on the wire.
   */
  lemma Transported(w: IcyWriter.Listener, r: Input)
    requires w.Valid() && r.Valid() && r.Conserved() && r.source.interval == w.interval
    requires r.received <= w.con.wire
    ensures r.delivered + r.surplus + r.readData <= w.Consumed()
    ensures r.source.d.blocks <= Blocks(w.frames)
    ensures
      r.received == w.con.wire ==>
        && r.delivered + r.surplus + r.readData == w.Consumed()
        && r.source.d.blocks == Blocks(w.frames) && |r.source.icys| == |Blocks(w.frames)|
        && (forall i :: 0 <= i < |Blocks(w.frames)| ==> Blocks(w.frames)[i] != [])
        && r.source.plugin.tags == LearnedAll(r.source.icys, Blocks(w.frames), r.source.tags0)
  {
    hide FeedAll, IcyWriter.OnWire;
    IcyWriter.WireReads(w);
    r.KeptIsAudio();
    var rest := w.con.wire[|r.received|..];
    FeedConcat(w.interval, START, r.received, rest);
    assert r.received + rest == w.con.wire;
    FeedGrows(w.interval, r.Seen(), rest);
  }

  /**
   And if the writer served its queue without a move, that is audio of the queue and the
   metadata that applies at the ends of its intervals, with repeats left out.
   */
  lemma QueueTransported(w: IcyWriter.Listener, r: Input)
    requires w.Valid() && IcyWriter.Faithful(w.interval, w.Now())
    requires r.Valid() && r.Conserved() && r.source.interval == w.interval && r.received <= w.con.wire
    ensures r.delivered + r.surplus + r.readData <= IcyWriter.Data(w.queue)
    ensures w.frames != [] ==> IcyWriter.EndOf(w.interval, |w.frames| - 1) < |IcyWriter.Data(w.queue)|
    ensures r.source.d.blocks <= IcyWriter.Changes(w.interval, w.queue, |w.frames|)
    ensures r.received == w.con.wire ==> r.source.d.blocks == IcyWriter.Changes(w.interval, w.queue, |w.frames|)
  {
    hide IcyWriter.Listener.Framed, IcyWriter.Faithful, IcyWriter.Changes, Input.Valid, IcyWriter.EndOf;
    IcyWriter.ShowsQueue(w);
    Transported(w, r);
  }
}
