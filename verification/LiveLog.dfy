/** Live chunks: stored in one writer job, then (for the first of a stream) queued for
    pinning, then broadcast, each a separate step that others may come between. */
module LiveLog {
  import opened Common

  datatype Stream = Stream(id: string)
  datatype User = User(id: string)
  type Cid = string

  /** The primary key of a stored chunk. */
  datatype Slot = Slot(stream: Stream, number: int)
  datatype Chunk = Chunk(slot: Slot, cid: Cid)

  datatype StreamRow = StreamRow(host: User, live: bool)

  /** What a handler whose chunk was stored has left to do. */
  datatype Todo = Todo(chunk: Chunk, pin: bool)

  datatype State = State(
    streams: map<Stream, StreamRow>,
    chunks: map<Slot, Cid>,
    todo: seq<Todo>,
    pins: seq<Chunk>,
    log: seq<Chunk>)

  datatype Event =
    | Create(stream: Stream, host: User)
    | Announce(user: User, chunk: Chunk)
    | Pin(i: nat)
    | Broadcast(i: nat)
    | End(user: User, stream: Stream)

  /** The cid check: 1 to 128 ASCII letters, digits, '-' or '_'. */
  predicate ValidCid(cid: Cid) {
    1 <= |cid| <= 128 && forall i :: 0 <= i < |cid| ==> CidChar(cid[i])
  }

  predicate CidChar(c: char) {
    'a' <= c <= 'z' || 'A' <= c <= 'Z' || '0' <= c <= '9' || c == '-' || c == '_'
  }

  datatype Reply = BadRequest | NotFound | Forbidden | Ended | Stored(first: bool) | Ignored

  predicate HasChunk(chunks: map<Slot, Cid>, stream: Stream) {
    exists slot :: slot in chunks && slot.stream == stream
  }

  /** The checks and the writer job of `announce_chunk_core`. */
  function Decide(streams: map<Stream, StreamRow>, chunks: map<Slot, Cid>, user: User, c: Chunk): Reply {
    var stream := c.slot.stream;
    if c.slot.number < 0 || !ValidCid(c.cid) then BadRequest
    else if stream !in streams then NotFound
    else if streams[stream].host != user then Forbidden
    else if !streams[stream].live then Ended
    else if c.slot in chunks then Ignored
    else Stored(!HasChunk(chunks, stream))
  }

  /** A handler pins before it broadcasts, and is done once it has broadcast. */
  function Step(s: State, e: Event): State {
    match e
    case Create(stream, host) =>
      if stream in s.streams then s else s.(streams := s.streams[stream := StreamRow(host, true)])
    case Announce(user, c) =>
      var reply := Decide(s.streams, s.chunks, user, c);
      if !reply.Stored? then s
      else s.(chunks := s.chunks[c.slot := c.cid], todo := s.todo + [Todo(c, reply.first)])
    case Pin(i) =>
      if i >= |s.todo| || !s.todo[i].pin then s
      else s.(pins := s.pins + [s.todo[i].chunk], todo := s.todo[i := s.todo[i].(pin := false)])
    case Broadcast(i) =>
      if i >= |s.todo| || s.todo[i].pin then s
      else s.(log := s.log + [s.todo[i].chunk], todo := RemoveAt(s.todo, i))
    case End(user, stream) =>
      if stream !in s.streams || s.streams[stream] != StreamRow(user, true) then s
      else s.(streams := s.streams[stream := StreamRow(user, false)])
  }

  function Run(s: State, es: seq<Event>): State
    decreases |es|
  {
    if es == [] then s else Run(Step(s, es[0]), es[1..])
  }

  const START := State(map[], map[], [], [], [])

  class Playlist {
    var streams: map<Stream, StreamRow>
    var chunks: map<Slot, Cid>

    /** The checks and the writer job of `announce_chunk_core`. */
    method Announce(user: User, c: Chunk) returns (reply: Reply)
      modifies this`chunks
      ensures reply == Decide(streams, old(chunks), user, c)
      ensures chunks == if reply.Stored? then old(chunks)[c.slot := c.cid] else old(chunks)
    {
      if c.slot.number < 0 { return BadRequest; }
      if !ValidCid(c.cid) { return BadRequest; }
      if c.slot.stream !in streams { return NotFound; }
      var row := streams[c.slot.stream];
      if row.host != user { return Forbidden; }
      if !row.live { return Ended; }
      var existing := set slot | slot in chunks && slot.stream == c.slot.stream;
      if c.slot in chunks {
        return Ignored;
      }
      assert existing == {} <==> !HasChunk(chunks, c.slot.stream) by {
        if slot :| slot in chunks && slot.stream == c.slot.stream { assert slot in existing; }
      }
      chunks := chunks[c.slot := c.cid];
      reply := Stored(existing == {});
    }

    /** The writer job of `end_stream`. */
    method EndStream(user: User, stream: Stream) returns (ok: bool)
      modifies this`streams
      ensures ok <==> stream in old(streams) && old(streams)[stream] == StreamRow(user, true)
      ensures streams == if ok then old(streams)[stream := StreamRow(user, false)] else old(streams)
    {
      ok := stream in streams && streams[stream].host == user && streams[stream].live;
      if ok { streams := streams[stream := StreamRow(user, false)]; }
    }
  }

  // ---------- the log against the playlist ----------

  /** Chunks broadcast, then chunks whose broadcast is still to come. */
  function Announced(s: State): seq<Chunk> {
    s.log + seq(|s.todo|, i requires 0 <= i < |s.todo| => s.todo[i].chunk)
  }

  /** Each stored chunk is broadcast or about to be, exactly once and with its stored cid. */
  ghost predicate Exact(s: State) {
    && (forall c :: c in Announced(s) <==> c.slot in s.chunks && s.chunks[c.slot] == c.cid)
    && (forall i, j :: 0 <= i < j < |Announced(s)| ==> Announced(s)[i].slot != Announced(s)[j].slot)
  }

  /** First-chunk pins of a stream, done or still to come. */
  function PinsFor(pins: seq<Chunk>, stream: Stream): nat {
    if pins == [] then 0 else (if pins[0].slot.stream == stream then 1 else 0) + PinsFor(pins[1..], stream)
  }

  function Unpinned(todo: seq<Todo>): seq<Chunk> {
    if todo == [] then []
    else if todo[0].pin then [todo[0].chunk] + Unpinned(todo[1..])
    else Unpinned(todo[1..])
  }

  ghost predicate OnePin(s: State) {
    forall x :: PinCount(s, x) == if HasChunk(s.chunks, x) then 1 else 0
  }

  lemma {:induction false} PinsConcat(a: seq<Chunk>, b: seq<Chunk>, x: Stream)
    ensures PinsFor(a + b, x) == PinsFor(a, x) + PinsFor(b, x)
  {
    if a == [] {
      assert a + b == b;
    } else {
      PinsConcat(a[1..], b, x);
      assert (a + b)[1..] == a[1..] + b;
    }
  }

  lemma {:induction false} UnpinnedConcat(a: seq<Todo>, b: seq<Todo>)
    ensures Unpinned(a + b) == Unpinned(a) + Unpinned(b)
  {
    if a == [] {
      assert a + b == b;
    } else {
      var head := if a[0].pin then [a[0].chunk] else [];
      UnpinnedConcat(a[1..], b);
      assert (a + b)[0] == a[0] && (a + b)[1..] == a[1..] + b;
      assert head + (Unpinned(a[1..]) + Unpinned(b)) == head + Unpinned(a[1..]) + Unpinned(b);
    }
  }

  lemma SplitAt(todo: seq<Todo>, i: nat, x: Stream)
    requires i < |todo|
    ensures PinsFor(Unpinned(todo), x) ==
      PinsFor(Unpinned(todo[..i]), x) + PinsFor(Unpinned([todo[i]]), x) + PinsFor(Unpinned(todo[i + 1..]), x)
  {
    var a, m, b := todo[..i], [todo[i]], todo[i + 1..];
    assert todo == a + (m + b);
    UnpinnedConcat(a, m + b);
    UnpinnedConcat(m, b);
    PinsConcat(Unpinned(a), Unpinned(m) + Unpinned(b), x);
    PinsConcat(Unpinned(m), Unpinned(b), x);
  }

  /** First-chunk pins of `x`, done or still to come. */
  function PinCount(s: State, x: Stream): nat {
    PinsFor(s.pins, x) + PinsFor(Unpinned(s.todo), x)
  }

  lemma StoredPins(s: State, user: User, c: Chunk, x: Stream)
    requires Decide(s.streams, s.chunks, user, c).Stored?
    ensures var s', first := Step(s, Announce(user, c)), Decide(s.streams, s.chunks, user, c).first;
      && PinCount(s', x) == PinCount(s, x) + (if first && c.slot.stream == x then 1 else 0)
      && (HasChunk(s'.chunks, x) <==> HasChunk(s.chunks, x) || x == c.slot.stream)
  {
    var s', first := Step(s, Announce(user, c)), Decide(s.streams, s.chunks, user, c).first;
    var new1 := [Todo(c, first)];
    UnpinnedConcat(s.todo, new1);
    PinsConcat(Unpinned(s.todo), Unpinned(new1), x);
    assert new1[1..] == [];
    assert c.slot in s'.chunks;
    if slot :| slot in s.chunks && slot.stream == x { assert slot in s'.chunks; }
  }

  lemma PinningPins(s: State, i: nat, x: Stream)
    requires i < |s.todo| && s.todo[i].pin
    ensures PinCount(Step(s, Pin(i)), x) == PinCount(s, x)
  {
    var s' := Step(s, Pin(i));
    PinsConcat(s.pins, [s.todo[i].chunk], x);
    SplitAt(s.todo, i, x);
    SplitAt(s'.todo, i, x);
    assert s'.todo[..i] == s.todo[..i] && s'.todo[i + 1..] == s.todo[i + 1..];
  }

  lemma BroadcastPins(s: State, i: nat, x: Stream)
    requires i < |s.todo| && !s.todo[i].pin
    ensures PinCount(Step(s, Broadcast(i)), x) == PinCount(s, x)
  {
    SplitAt(s.todo, i, x);
    UnpinnedConcat(s.todo[..i], s.todo[i + 1..]);
    PinsConcat(Unpinned(s.todo[..i]), Unpinned(s.todo[i + 1..]), x);
  }

  lemma OnePinStep(s: State, e: Event)
    requires OnePin(s)
    ensures OnePin(Step(s, e))
  {
    var s' := Step(s, e);
    forall x ensures PinCount(s', x) == if HasChunk(s'.chunks, x) then 1 else 0 {
      assert PinCount(s, x) == if HasChunk(s.chunks, x) then 1 else 0;
      match e {
        case Announce(user, c) => if Decide(s.streams, s.chunks, user, c).Stored? { StoredPins(s, user, c, x); }
        case Pin(i) => if i < |s.todo| && s.todo[i].pin { PinningPins(s, i, x); }
        case Broadcast(i) => if i < |s.todo| && !s.todo[i].pin { BroadcastPins(s, i, x); }
        case _ =>
      }
    }
  }

  lemma ExactStored(s: State, user: User, c: Chunk)
    requires Exact(s) && Decide(s.streams, s.chunks, user, c).Stored?
    ensures Exact(Step(s, Announce(user, c)))
  {
    var s' := Step(s, Announce(user, c));
    assert Announced(s') == Announced(s) + [c];
    forall i | 0 <= i < |Announced(s)| ensures Announced(s)[i].slot != c.slot {
      assert Announced(s)[i] in Announced(s);
    }
  }

  lemma ExactBroadcast(s: State, i: nat)
    requires Exact(s) && i < |s.todo| && !s.todo[i].pin
    ensures Exact(Step(s, Broadcast(i)))
  {
    Moved(Announced(s), Announced(Step(s, Broadcast(i))), |s.log|, |s.log| + i);
  }

  lemma ExactStep(s: State, e: Event)
    requires Exact(s)
    ensures Exact(Step(s, e))
  {
    match e {
      case Announce(user, c) => if Decide(s.streams, s.chunks, user, c).Stored? { ExactStored(s, user, c); }
      case Broadcast(i) => if i < |s.todo| && !s.todo[i].pin { ExactBroadcast(s, i); }
      case _ => assert Announced(Step(s, e)) == Announced(s);
    }
  }

  /** Where the k-th element came from when the one at `i` has moved to `lo`. */
  function Source(lo: nat, i: nat, k: nat): nat {
    if k < lo || k > i then k else if k == lo then i else k - 1
  }

  /** Moving one element to the front of a stretch keeps the elements and their distinctness. */
  lemma Moved(a: seq<Chunk>, b: seq<Chunk>, lo: nat, i: nat)
    requires lo <= i < |a| && |a| == |b|
    requires forall k :: 0 <= k < |b| ==> b[k] == a[Source(lo, i, k)]
    ensures forall c :: c in b <==> c in a
    ensures (forall k, m :: 0 <= k < m < |a| ==> a[k].slot != a[m].slot) ==>
      forall k, m :: 0 <= k < m < |b| ==> b[k].slot != b[m].slot
  {
    forall c ensures c in b <==> c in a {
      if c in a {
        var k :| 0 <= k < |a| && a[k] == c;
        var k' := if k < lo || k > i then k else if k == i then lo else k + 1;
        assert b[k'] == a[Source(lo, i, k')] == a[k];
      }
    }
    if forall k, m :: 0 <= k < m < |a| ==> a[k].slot != a[m].slot {
      forall k, m | 0 <= k < m < |b| ensures b[k].slot != b[m].slot {
        assert b[k] == a[Source(lo, i, k)] && b[m] == a[Source(lo, i, m)];
      }
    }
  }

  lemma {:induction false} RunKeeps(s: State, es: seq<Event>)
    requires Exact(s) && OnePin(s)
    ensures Exact(Run(s, es)) && OnePin(Run(s, es))
    decreases |es|
  {
    if es != [] {
      ExactStep(s, es[0]);
      OnePinStep(s, es[0]);
      RunKeeps(Step(s, es[0]), es[1..]);
    }
  }

  /** Over every interleaving: no slot is broadcast twice, only stored chunks are broadcast,
      with their stored cid, and never more than one first-chunk pin per stream; and once the
      handlers are done, the log is the playlist and each stream with chunks has one pin. */
  lemma LogIsPlaylist(es: seq<Event>)
    ensures var s := Run(START, es);
      && (forall i, j :: 0 <= i < j < |s.log| ==> s.log[i].slot != s.log[j].slot)
      && (forall c :: c in s.log ==> c.slot in s.chunks && s.chunks[c.slot] == c.cid)
      && (forall x :: PinsFor(s.pins, x) <= if HasChunk(s.chunks, x) then 1 else 0)
      && (s.todo == [] ==>
            && (forall c :: c in s.log <==> c.slot in s.chunks && s.chunks[c.slot] == c.cid)
            && (forall x :: PinsFor(s.pins, x) == if HasChunk(s.chunks, x) then 1 else 0))
  {
    RunKeeps(START, es);
    var s := Run(START, es);
    forall i | 0 <= i < |s.log| ensures Announced(s)[i] == s.log[i] {}
    forall c | c in s.log ensures c in Announced(s) {
      var i :| 0 <= i < |s.log| && s.log[i] == c;
      assert Announced(s)[i] == c;
    }
    if s.todo == [] { assert Announced(s) == s.log && Unpinned(s.todo) == []; }
    forall x ensures PinCount(s, x) == if HasChunk(s.chunks, x) then 1 else 0 {}
  }

  function PlaylistOf(s: State, x: Stream): map<int, Cid> {
    map n | n in (set slot | slot in s.chunks && slot.stream == x :: slot.number) :: s.chunks[Slot(x, n)]
  }

  lemma EndedStep(s: State, e: Event, x: Stream)
    requires x in s.streams && !s.streams[x].live
    ensures var s' := Step(s, e); x in s'.streams && !s'.streams[x].live && PlaylistOf(s', x) == PlaylistOf(s, x)
  {
    var s' := Step(s, e);
    assert forall slot :: slot in s'.chunks && slot.stream == x ==> slot in s.chunks;
    assert forall slot :: slot in s.chunks ==> slot in s'.chunks && s'.chunks[slot] == s.chunks[slot];
  }

  /** After a stream has ended its playlist never changes again. */
  lemma {:induction false} NothingStoredAfterEnd(s: State, es: seq<Event>, x: Stream)
    requires x in s.streams && !s.streams[x].live
    ensures PlaylistOf(Run(s, es), x) == PlaylistOf(s, x)
    decreases |es|
  {
    if es != [] {
      EndedStep(s, es[0], x);
      NothingStoredAfterEnd(Step(s, es[0]), es[1..], x);
    }
  }

  // ---------- who may announce ----------

  /** What decides each answer: a chunk is stored exactly for a number and a cid in form, a
      stream that is live, its host, and a slot still free. */
  lemma AnnounceRule(streams: map<Stream, StreamRow>, chunks: map<Slot, Cid>, user: User, c: Chunk)
    ensures var x, reply := c.slot.stream, Decide(streams, chunks, user, c);
      var form := c.slot.number >= 0 && 1 <= |c.cid| <= 128 && forall i :: 0 <= i < |c.cid| ==>
        'a' <= c.cid[i] <= 'z' || 'A' <= c.cid[i] <= 'Z' || '0' <= c.cid[i] <= '9' || c.cid[i] == '-' || c.cid[i] == '_';
      var mine := form && x in streams && streams[x].host == user;
      && (reply == BadRequest <==> !form)
      && (reply == NotFound <==> form && x !in streams)
      && (reply == Forbidden <==> form && x in streams && streams[x].host != user)
      && (reply == Ended <==> mine && !streams[x].live)
      && (reply == Ignored <==> mine && streams[x].live && c.slot in chunks)
      && (reply.Stored? <==> mine && streams[x].live && c.slot !in chunks)
      && (reply.Stored? ==> (reply.first <==> forall slot :: slot in chunks ==> slot.stream != x))
  {
  }

  /** A stream keeps its host, starts live by its creation, and ends exactly by its host's end. */
  lemma StreamRule(s: State, e: Event, x: Stream)
    ensures x !in s.streams ==> (x in Step(s, e).streams <==> e.Create? && e.stream == x)
    ensures x !in s.streams && e.Create? && e.stream == x ==> Step(s, e).streams[x] == StreamRow(e.host, true)
    ensures x in s.streams ==> x in Step(s, e).streams && Step(s, e).streams[x].host == s.streams[x].host
    ensures x in s.streams ==>
      (Step(s, e).streams[x].live <==> s.streams[x].live && !(e.End? && e.stream == x && e.user == s.streams[x].host))
  {
  }

  /** The n-th event announces this slot, by this user, with this cid. */
  predicate AnnouncedAt(es: seq<Event>, n: nat, user: User, slot: Slot, cid: Cid) {
    n < |es| && es[n] == Announce(user, Chunk(slot, cid))
  }

  /** Over every run, each stored chunk was announced by the host of its stream. */
  lemma {:induction false} StoredByHost(s: State, es: seq<Event>, slot: Slot)
    requires slot !in s.chunks && slot in Run(s, es).chunks
    ensures slot.stream in Run(s, es).streams
    ensures exists n: nat :: AnnouncedAt(es, n, Run(s, es).streams[slot.stream].host, slot, Run(s, es).chunks[slot])
    decreases |es|
  {
    var s', rest := Step(s, es[0]), es[1..];
    if slot in s'.chunks {
      assert es[0].Announce? && es[0].chunk == Chunk(slot, s'.chunks[slot]);
      RowsStay(s', rest, slot);
      assert AnnouncedAt(es, 0, es[0].user, slot, s'.chunks[slot]);
    } else {
      StoredByHost(s', rest, slot);
      var host, cid := Run(s', rest).streams[slot.stream].host, Run(s', rest).chunks[slot];
      var n: nat :| AnnouncedAt(rest, n, host, slot, cid);
      assert AnnouncedAt(es, n + 1, host, slot, cid);
    }
  }

  /** A stored chunk stays as it is, and its stream keeps its host. */
  lemma {:induction false} RowsStay(s: State, es: seq<Event>, slot: Slot)
    requires slot in s.chunks && slot.stream in s.streams
    ensures slot in Run(s, es).chunks && Run(s, es).chunks[slot] == s.chunks[slot]
    ensures slot.stream in Run(s, es).streams && Run(s, es).streams[slot.stream].host == s.streams[slot.stream].host
    decreases |es|
  {
    if es != [] {
      StreamRule(s, es[0], slot.stream);
      RowsStay(Step(s, es[0]), es[1..], slot);
    }
  }
}
