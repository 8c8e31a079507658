// Routing terminal bytes to the focused pane. While the daemon's replay is on
// its way a route buffers live bytes; when the replay arrives the part of the
// buffer it already covers is dropped and live output is released behind it.
module OutputRoute {
  import opened Wrappers

  // ---------- How much of the buffer the replay covers ----------

  // The piece stands in the text, ending at end.
  predicate Stands(piece: Bytes, text: Bytes, end: nat) {
    |piece| <= end <= |text| && text[end - |piece|..end] == piece
  }

  // The piece stands somewhere in the text, ending before a limit.
  ghost predicate StandsBefore(piece: Bytes, text: Bytes, limit: nat) {
    exists end: nat :: end < limit && Stands(piece, text, end)
  }

  ghost predicate StandsIn(piece: Bytes, text: Bytes) {
    StandsBefore(piece, text, |text| + 1)
  }

  // The last length bytes of the replay stand in the buffer, ending at end.
  predicate MatchAt(replay: Bytes, pending: Bytes, end: nat, length: nat) {
    && length <= |replay|
    && length <= end <= |pending|
    && replay[|replay| - length..] == pending[end - length..end]
  }

  // The same, by where the match starts.
  predicate MatchFrom(replay: Bytes, pending: Bytes, start: nat, length: nat) {
    MatchAt(replay, pending, start + length, length)
  }

  // The earliest end of a longest match; the empty match ends at 0.
  ghost predicate BestEnd(replay: Bytes, pending: Bytes, end: nat, length: nat) {
    && MatchAt(replay, pending, end, length)
    && forall e: nat, l: nat :: MatchAt(replay, pending, e, l) ==> l <= length && (l == length ==> end <= e)
  }

  method ReplayOverlap(replay: Bytes, pending: Bytes) returns (bestEnd: nat, bestLength: nat)
    ensures BestEnd(replay, pending, bestEnd, bestLength)
    ensures bestEnd == 0 <==> forall e: nat, l: nat :: MatchAt(replay, pending, e, l) ==> l == 0
  {
    bestLength, bestEnd := 0, 0;
    for start := 0 to |pending|
      invariant MatchAt(replay, pending, bestEnd, bestLength)
      invariant bestLength == 0 ==> bestEnd == 0
      invariant bestLength > 0 ==> bestEnd - bestLength < start
      invariant forall e: nat, l: nat :: MatchAt(replay, pending, e, l) && l > 0 && e - l < start ==>
                  l <= bestLength && (l == bestLength ==> bestEnd <= e)
    {
      var maxLength := if |replay| <= |pending| - start then |replay| else |pending| - start;
      var length := maxLength;
      while length >= 1
        invariant 0 <= length <= maxLength
        invariant forall l: nat :: length < l <= maxLength ==> !MatchFrom(replay, pending, start, l)
      {
        assert start + length - length == start;
        if replay[|replay| - length..] == pending[start..start + length] {
          break;
        }
        length := length - 1;
      }
      forall e: nat, l: nat | MatchAt(replay, pending, e, l) && e - l == start ensures l <= length {
        assert MatchFrom(replay, pending, start, l);
      }
      if length >= 1 {
        var end := start + length;
        if length > bestLength || (length == bestLength && end < bestEnd) {
          bestLength, bestEnd := length, end;
        }
      }
    }
  }

  // There is only one answer.
  lemma BestEndUnique(replay: Bytes, pending: Bytes, end: nat, length: nat, end': nat, length': nat)
    requires BestEnd(replay, pending, end, length) && BestEnd(replay, pending, end', length')
    ensures end == end' && length == length'
  {
  }

  // ---------- What the pane receives ----------

  // The replay is stream[a..b) and the buffer stream[c..d). The buffer's first
  // b - c bytes are the ones the replay already shows.
  predicate Windows(stream: Bytes, a: nat, b: nat, c: nat, d: nat) {
    a <= b <= |stream| && c <= b && c <= d <= |stream|
  }

  // Dropping end bytes of the buffer gives the stream from a onward, with every
  // byte once, exactly when those are the bytes the replay covers.
  lemma SpliceExact(stream: Bytes, a: nat, b: nat, c: nat, d: nat, end: nat)
    requires Windows(stream, a, b, c, d) && a <= d && end <= d - c
    ensures stream[a..b] + stream[c..d][end..] == stream[a..d] <==> end == b - c
  {
    if end == b - c {
      assert stream[c..d][end..] == stream[b..d];
    } else {
      assert |stream[a..b] + stream[c..d][end..]| != d - a;
    }
  }

  lemma SliceOfSlice(s: Bytes, c: nat, d: nat, i: nat, j: nat)
    requires c <= d <= |s| && i <= j <= d - c
    ensures s[c..d][i..j] == s[c + i..c + j]
  {
    forall k | 0 <= k < j - i ensures s[c..d][i..j][k] == s[c + i..c + j][k] {
      assert s[c..d][i + k] == s[c + (i + k)];
    }
  }

  // Whatever part both windows have of the stream up to b is a match.
  lemma SharedPartMatches(stream: Bytes, a: nat, b: nat, c: nat, d: nat, end: nat, length: nat)
    requires Windows(stream, a, b, c, d) && b <= d && end == b - c
    requires length <= end && length <= b - a
    ensures MatchAt(stream[a..b], stream[c..d], end, length)
  {
    SuffixOfSlice(stream, a, b, b - length);
    SliceOfSlice(stream, c, d, end - length, end);
    assert c + (end - length) == b - length;
  }

  lemma SuffixMatches(replay: Bytes, pending: Bytes, end: nat, length: nat, shorter: nat)
    requires MatchAt(replay, pending, end, length) && shorter <= length
    ensures MatchAt(replay, pending, end, shorter)
  {
    var cut := length - shorter;
    assert replay[|replay| - length..][cut..] == replay[|replay| - shorter..];
    assert pending[end - length..end][cut..] == pending[end - shorter..end];
  }

  // When the buffer reaches back at least as far as the replay, nothing is ever
  // lost: at most some bytes are shown twice.
  lemma NothingLost(stream: Bytes, a: nat, b: nat, c: nat, d: nat, end: nat, length: nat)
    requires Windows(stream, a, b, c, d) && c <= a
    requires BestEnd(stream[a..b], stream[c..d], end, length)
    ensures c + end <= b
    ensures stream[c..d][end..] == stream[c + end..d]
  {
    if b <= d {
      SharedPartMatches(stream, a, b, c, d, b - c, b - a);
    }
  }

  // And when the replay reaches back at least as far as the buffer, and the buffer
  // beyond the replay, nothing is ever shown twice: at most some bytes are lost.
  lemma NothingTwice(stream: Bytes, a: nat, b: nat, c: nat, d: nat, end: nat, length: nat)
    requires Windows(stream, a, b, c, d) && a <= c && b <= d
    requires BestEnd(stream[a..b], stream[c..d], end, length)
    ensures b <= c + end
    ensures stream[c..d][end..] == stream[c + end..d]
  {
    SharedPartMatches(stream, a, b, c, d, b - c, b - c);
  }

  // What must not stand in the buffer for the splice to be right, and how far: the
  // replay's share of the buffer with one byte more in front of it, anywhere; or, when
  // the buffer holds the whole replay, the replay at an earlier place.
  ghost predicate NoRival(stream: Bytes, a: nat, b: nat, c: nat, d: nat)
    requires Windows(stream, a, b, c, d)
  {
    if a < c
    then !StandsIn(stream[c - 1..b], stream[c..d])
    else !StandsBefore(stream[a..b], stream[c..d], b - c)
  }

  // The search finds the true overlap exactly when the buffer reaches the end of the
  // replay and has no rival to it.
  lemma OverlapIsTrue(stream: Bytes, a: nat, b: nat, c: nat, d: nat, end: nat, length: nat)
    requires Windows(stream, a, b, c, d)
    requires BestEnd(stream[a..b], stream[c..d], end, length)
    ensures end == b - c <==> b <= d && NoRival(stream, a, b, c, d)
  {
    hide BestEnd, MatchAt, StandsIn, StandsBefore;
    if d < b {
      EndsInside(stream[a..b], stream[c..d], end, length);
    } else if a < c {
      OverlapBeforeBuffer(stream, a, b, c, d, end, length);
    } else {
      SharedPartMatches(stream, a, b, c, d, b - c, b - a);
      NoEarlierMatch(stream[a..b], stream[c..d], b - c, end, length);
    }
  }

  lemma OverlapBeforeBuffer(stream: Bytes, a: nat, b: nat, c: nat, d: nat, end: nat, length: nat)
    requires Windows(stream, a, b, c, d) && a < c && b <= d
    requires BestEnd(stream[a..b], stream[c..d], end, length)
    ensures end == b - c <==> !StandsIn(stream[c - 1..b], stream[c..d])
  {
    hide BestEnd, MatchAt, StandsIn;
    SharedPartMatches(stream, a, b, c, d, b - c, b - c);
    SuffixOfSlice(stream, a, b, c - 1);
    NoLongerMatch(stream[a..b], stream[c..d], b - c, end, length, stream[c - 1..b]);
  }

  lemma EndsInside(replay: Bytes, pending: Bytes, end: nat, length: nat)
    requires BestEnd(replay, pending, end, length)
    ensures end <= |pending|
  {
  }

  lemma SuffixOfSlice(s: Bytes, a: nat, b: nat, i: nat)
    requires a <= i <= b <= |s|
    ensures s[a..b][|s[a..b]| - (b - i)..] == s[i..b]
  {
  }

  lemma NoLongerMatch(replay: Bytes, pending: Bytes, overlap: nat, end: nat, length: nat, longer: Bytes)
    requires BestEnd(replay, pending, end, length) && MatchAt(replay, pending, overlap, overlap)
    requires |longer| == overlap + 1 <= |replay| && longer == replay[|replay| - |longer|..]
    ensures end == overlap <==> !StandsIn(longer, pending)
  {
    if length > overlap {
      SuffixMatches(replay, pending, end, length, |longer|);
      assert Stands(longer, pending, end);
    } else if StandsIn(longer, pending) {
      var e: nat :| e < |pending| + 1 && Stands(longer, pending, e);
      assert MatchAt(replay, pending, e, |longer|);
      assert false;
    }
  }

  lemma NoEarlierMatch(replay: Bytes, pending: Bytes, overlap: nat, end: nat, length: nat)
    requires BestEnd(replay, pending, end, length) && MatchAt(replay, pending, overlap, |replay|)
    ensures end == overlap <==> !StandsBefore(replay, pending, overlap)
  {
    assert replay[|replay| - |replay|..] == replay;
    assert length == |replay|;
    assert Stands(replay, pending, end);
    if end == overlap && StandsBefore(replay, pending, overlap) {
      var e: nat :| e < overlap && Stands(replay, pending, e);
      assert MatchAt(replay, pending, e, |replay|);
      assert false;
    }
  }

  // When everything buffered is new (c == b) the pane gets all of it exactly when the
  // last byte of the replay is nowhere in it. Otherwise bytes are lost.
  lemma AllNewKept(stream: Bytes, a: nat, b: nat, d: nat, end: nat, length: nat)
    requires Windows(stream, a, b, b, d)
    requires BestEnd(stream[a..b], stream[b..d], end, length)
    ensures stream[a..b] + stream[b..d][end..] == stream[a..d] <==> a == b || stream[b - 1] !in stream[b..d]
  {
    SpliceExact(stream, a, b, b, d, end);
    OverlapIsTrue(stream, a, b, b, d, end, length);
    if a < b {
      assert stream[b - 1..b] == [stream[b - 1]];
      ByteStands(stream[b - 1], stream[b..d]);
    }
  }

  lemma ByteStands(x: byte, text: Bytes)
    ensures x in text <==> StandsIn([x], text)
  {
    if x in text {
      var i :| 0 <= i < |text| && text[i] == x;
      assert Stands([x], text, i + 1);
    }
    if StandsIn([x], text) {
      var e: nat :| e < |text| + 1 && Stands([x], text, e);
      assert text[e - 1..e][0] == text[e - 1];
    }
  }

  // The smallest loss: a program prints the same byte twice, the second time while the
  // replay is on its way, and the pane shows it once.
  lemma OneByteIsLost()
    ensures
      var replay, pending: Bytes := [1], [1];
      && BestEnd(replay, pending, 1, 1)
      && replay + pending[1..] == [1]
      && replay + pending != [1]
  {
    var replay, pending: Bytes := [1], [1];
    assert replay[0..] == pending[0..1];
  }

  // Nothing need be printed twice: it takes one common byte, and everything up to it is
  // lost with it.
  lemma FreshBytesAreLost()
    ensures
      var replay, pending: Bytes := [1, 2, 10], [3, 4, 10, 5];
      && BestEnd(replay, pending, 3, 1)
      && replay + pending[3..] == [1, 2, 10, 5]
  {
    var replay, pending: Bytes := [1, 2, 10], [3, 4, 10, 5];
    assert replay[2..] == [10] == pending[2..3];
    forall e: nat, l: nat | MatchAt(replay, pending, e, l) && l > 0
      ensures l <= 1 && 3 <= e
    {
      LastBytesMatch(replay, pending, e, l);
    }
  }

  lemma LastBytesMatch(replay: Bytes, pending: Bytes, end: nat, length: nat)
    requires MatchAt(replay, pending, end, length) && length > 0
    ensures replay[|replay| - 1] == pending[end - 1]
    ensures length > 1 ==> replay[|replay| - 2] == pending[end - 2]
  {
    var piece, found := replay[|replay| - length..], pending[end - length..end];
    assert piece[length - 1] == found[length - 1];
    assert length > 1 ==> piece[length - 2] == found[length - 2];
  }

  // ---------- The route ----------

  // batch is the data a flush has taken and not yet sent; sent is everything the
  // channel accepted.
  datatype Route = Route(replaying: bool, pending: Bytes, batch: Bytes, sent: Bytes)

  function Queued(r: Route, data: Bytes): Route {
    r.(pending := r.pending + data)
  }

  // The locked half of a flush.
  function Taken(r: Route): Route {
    if r.replaying || r.pending == [] then r else r.(batch := r.pending, pending := [])
  }

  // The unlocked half.
  function Sent(r: Route): Route {
    r.(sent := r.sent + r.batch, batch := [])
  }

  function Completed(r: Route, replay: Bytes, end: nat): Route
    requires end <= |r.pending|
  {
    r.(replaying := false, sent := r.sent + replay + r.pending[end..], pending := [])
  }

  datatype SendError = ChannelClosed

  class OutputRoute {
    var replaying: bool
    var pending: Bytes
    // What flush holds between its lock and its send, and what the channel took.
    var batch: Bytes
    var sent: Bytes

    ghost function Value(): Route
      reads this
    {
      Route(replaying, pending, batch, sent)
    }

    constructor (replaying: bool)
      ensures Value() == Route(replaying, [], [], [])
    {
      this.replaying, pending, batch, sent := replaying, [], [], [];
    }

    method Queue(data: Bytes)
      modifies this
      ensures Value() == Queued(old(Value()), data)
    {
      pending := pending + data;
    }

    // accepts says whether the channel takes the send.
    method Flush(accepts: bool) returns (result: Result<(), SendError>)
      requires batch == []
      modifies this
      ensures result.Ok? ==> Value() == Sent(Taken(old(Value())))
      ensures result.Err? ==> !accepts && Value() == Taken(old(Value())).(batch := [])
      ensures old(replaying) ==> result.Ok? && Value() == old(Value())
      ensures !old(replaying) ==>
                && replaying == old(replaying) && pending == [] && batch == []
                && (result.Ok? <==> accepts || old(pending) == [])
                && sent == if accepts then old(sent) + old(pending) else old(sent)
    {
      if replaying || pending == [] {
        return Ok(());
      }
      batch, pending := pending, [];
      if !accepts {
        batch := [];
        return Err(ChannelClosed);
      }
      sent, batch := sent + batch, [];
      return Ok(());
    }

    // A refused send leaves the route replaying, so it never sends again.
    method CompleteReplay(replay: Bytes, accepts: bool, acceptsRest: bool)
      returns (result: Result<(), SendError>, ghost end: nat, ghost length: nat)
      modifies this
      ensures BestEnd(replay, old(pending), end, length)
      ensures result.Ok? <==> accepts && (end < |old(pending)| ==> acceptsRest)
      ensures result.Ok? ==> Value() == Completed(old(Value()), replay, end)
      ensures result.Err? ==> replaying == old(replaying) && pending == [] && batch == old(batch)
      ensures result.Err? ==> sent == if accepts then old(sent) + replay else old(sent)
    {
      var held := pending;
      pending := [];
      var pendingStart, matched := ReplayOverlap(replay, held);
      end, length := pendingStart, matched;
      if !accepts {
        return Err(ChannelClosed), end, length;
      }
      sent := sent + replay;
      if pendingStart < |held| {
        if !acceptsRest {
          return Err(ChannelClosed), end, length;
        }
        sent := sent + held[pendingStart..];
      } else {
        assert held[pendingStart..] == [];
      }
      replaying := false;
      return Ok(()), end, length;
    }
  }

  // ---------- Every interleaving ----------

  datatype Splice = Splice(a: nat, b: nat, end: nat)

  // stream is everything the session has printed; start is how much of it had
  // been handed out when the route was registered, queued how much by now.
  datatype World = World(stream: Bytes, start: nat, queued: nat, route: Route, splice: Option<Splice>)

  // The one flusher takes a batch and later sends it; the replay is a window of
  // what was printed, and may arrive before or after the events it covers.
  datatype Step =
    | Prints(data: Bytes)
    | Queues(count: nat)
    | Takes
    | Sends
    | Completes(a: nat, b: nat, end: nat, length: nat)

  predicate Init(w: World) {
    && w.start == w.queued <= |w.stream|
    && w.route == Route(true, [], [], [])
    && w.splice == None
  }

  ghost predicate Enabled(w: World, s: Step) {
    match s
    case Prints(_) => true
    case Queues(count) => w.queued + count <= |w.stream|
    case Takes => w.route.batch == []
    case Sends => true
    case Completes(a, b, end, length) =>
      && w.splice.None?
      && a <= b <= |w.stream| && w.start <= b
      && BestEnd(w.stream[a..b], w.route.pending, end, length)
  }

  ghost function Next(w: World, s: Step): World
    requires Enabled(w, s)
  {
    match s
    case Prints(data) => w.(stream := w.stream + data)
    case Queues(count) =>
      w.(route := Queued(w.route, w.stream[w.queued..w.queued + count]), queued := w.queued + count)
    case Takes => w.(route := Taken(w.route))
    case Sends => w.(route := Sent(w.route))
    case Completes(a, b, end, _) =>
      w.(route := Completed(w.route, w.stream[a..b], end), splice := Some(Splice(a, b, end)))
  }

  ghost predicate Run(ws: seq<World>, steps: seq<Step>) {
    && |ws| == |steps| + 1
    && Init(ws[0])
    && forall k :: 0 <= k < |steps| ==> Enabled(ws[k], steps[k]) && ws[k + 1] == Next(ws[k], steps[k])
  }

  ghost predicate Inv(w: World) {
    && w.start <= w.queued <= |w.stream|
    && match w.splice
       case None =>
         && w.route.replaying && w.route.sent == [] && w.route.batch == []
         && w.route.pending == w.stream[w.start..w.queued]
       case Some(s) =>
         && !w.route.replaying
         && s.a <= s.b <= |w.stream| && w.start <= s.b && w.start + s.end <= w.queued
         && w.route.sent + w.route.batch + w.route.pending
            == w.stream[s.a..s.b] + w.stream[w.start + s.end..w.queued]
  }

  lemma PrintsKeepsInv(w: World, data: Bytes)
    requires Inv(w)
    ensures Inv(w.(stream := w.stream + data))
  {
    var stream := w.stream + data;
    assert forall i, j :: 0 <= i <= j <= |w.stream| ==> stream[i..j] == w.stream[i..j];
  }

  lemma QueuesKeepsInv(w: World, count: nat)
    requires Inv(w) && Enabled(w, Queues(count))
    ensures Inv(Next(w, Queues(count)))
  {
    var r, more := w.route, w.queued + count;
    if w.splice.Some? {
      var s := w.splice.value;
      QueueGrows(r.sent + r.batch, r.pending, w.stream[s.a..s.b], w.stream, w.start + s.end, w.queued, more);
    } else {
      QueueGrows([], r.pending, [], w.stream, w.start, w.queued, more);
      assert [] + r.pending == r.pending && [] + w.stream[w.start..w.queued] == w.stream[w.start..w.queued];
      assert [] + (r.pending + w.stream[w.queued..more]) == r.pending + w.stream[w.queued..more];
      assert [] + w.stream[w.start..more] == w.stream[w.start..more];
    }
  }

  lemma QueueGrows(sent: Bytes, pending: Bytes, head: Bytes, s: Bytes, from: nat, queued: nat, more: nat)
    requires from <= queued <= more <= |s| && sent + pending == head + s[from..queued]
    ensures sent + (pending + s[queued..more]) == head + s[from..more]
  {
    SplitAt(s, from, queued, more);
    var data := s[queued..more];
    assert sent + (pending + data) == (sent + pending) + data;
    assert head + (s[from..queued] + data) == (head + s[from..queued]) + data;
  }

  lemma CompletesKeepsInv(w: World, a: nat, b: nat, end: nat, length: nat)
    requires Inv(w) && Enabled(w, Completes(a, b, end, length))
    ensures Inv(Next(w, Completes(a, b, end, length)))
  {
    assert w.stream[w.start..w.queued][end..] == w.stream[w.start + end..w.queued];
    var r := Next(w, Completes(a, b, end, length)).route;
    assert r.sent + r.batch + r.pending == r.sent;
  }

  lemma NextKeepsInv(w: World, s: Step)
    requires Inv(w) && Enabled(w, s)
    ensures Inv(Next(w, s))
  {
    match s
    case Prints(data) => PrintsKeepsInv(w, data);
    case Queues(count) => QueuesKeepsInv(w, count);
    case Completes(a, b, end, length) => CompletesKeepsInv(w, a, b, end, length);
    case Takes => assert w.route.sent + [] + w.route.pending == w.route.sent + w.route.pending + [];
    case Sends =>
      assert w.route.sent + w.route.batch + [] + w.route.pending
          == w.route.sent + w.route.batch + w.route.pending;
  }

  lemma {:induction false} RunKeepsInv(ws: seq<World>, steps: seq<Step>, k: nat)
    requires Run(ws, steps) && k < |ws|
    ensures Inv(ws[k])
  {
    if k > 0 {
      RunKeepsInv(ws, steps, k - 1);
      NextKeepsInv(ws[k - 1], steps[k - 1]);
    }
  }

  // In every reachable state: before the replay the pane has nothing; after it,
  // what the pane has and what is still to be sent to it is the replay followed
  // by the stream from one point on. That is the stream from a, every byte once,
  // exactly when that point is the replay's end. An earlier point shows bytes
  // twice, a later one loses some, and there is no other way to go wrong.
  lemma ExactlyOnce(ws: seq<World>, steps: seq<Step>, k: nat)
    requires Run(ws, steps) && k < |ws|
    ensures var w := ws[k]; var all := w.route.sent + w.route.batch + w.route.pending;
            match w.splice
            case None => w.route.sent == []
            case Some(s) =>
              && s.a <= s.b <= |w.stream| && w.start + s.end <= w.queued <= |w.stream|
              && all == w.stream[s.a..s.b] + w.stream[w.start + s.end..w.queued]
              && (s.b <= w.queued ==>
                    (all == w.stream[s.a..w.queued] <==> w.start + s.end == s.b))
  {
    RunKeepsInv(ws, steps, k);
    var w := ws[k];
    if w.splice.Some? && w.splice.value.b <= w.queued {
      var s := w.splice.value;
      SpliceExact(w.stream, s.a, s.b, w.start, w.queued, s.end);
      assert w.stream[w.start..w.queued][s.end..] == w.stream[w.start + s.end..w.queued];
    }
  }

  // How a replay joins the stream, decided when it arrives: exactly, when the events it
  // covers are queued and have no rival to the true overlap; never with a loss, when
  // buffering began no later than the replay; and never with a repetition, when it began
  // no earlier and those events are queued.
  lemma ReplayJoinsStream(ws: seq<World>, steps: seq<Step>, k: nat)
    requires Run(ws, steps) && k < |steps| && steps[k].Completes?
    ensures
      var w, a, b, c := ws[k], steps[k].a, steps[k].b, ws[k].start;
      && Windows(w.stream, a, b, c, w.queued) && w.route.pending == w.stream[c..w.queued]
      && ws[k + 1].splice == Some(Splice(a, b, steps[k].end))
      && (c + steps[k].end == b <==> b <= w.queued && NoRival(w.stream, a, b, c, w.queued))
      && (c <= a ==> c + steps[k].end <= b)
      && (a <= c && b <= w.queued ==> b <= c + steps[k].end)
  {
    RunKeepsInv(ws, steps, k);
    var w, s := ws[k], steps[k];
    OverlapIsTrue(w.stream, s.a, s.b, w.start, w.queued, s.end, s.length);
    if w.start <= s.a {
      NothingLost(w.stream, s.a, s.b, w.start, w.queued, s.end, s.length);
    }
    if s.a <= w.start && s.b <= w.queued {
      NothingTwice(w.stream, s.a, s.b, w.start, w.queued, s.end, s.length);
    }
  }

  lemma {:induction false} SpliceStays(ws: seq<World>, steps: seq<Step>, k: nat, m: nat)
    requires Run(ws, steps) && k <= m < |ws| && ws[k].splice.Some?
    ensures ws[m].splice == ws[k].splice && ws[m].start == ws[k].start
    decreases m
  {
    if k < m {
      SpliceStays(ws, steps, k, m - 1);
      assert ws[m] == Next(ws[m - 1], steps[m - 1]);
    }
  }

  // A replay that overtakes the events it covers shows bytes twice, unless it is empty:
  // the search looks only at what has been queued by then. Once those events have come,
  // the replay's last byte, and whatever of it had not been queued, is there again.
  lemma OvertakingReplayRepeats(ws: seq<World>, steps: seq<Step>, k: nat, m: nat)
    requires Run(ws, steps) && k < |steps| && steps[k].Completes?
    requires ws[k].queued < steps[k].b && steps[k].a < steps[k].b
    requires k < m < |ws| && steps[k].b <= ws[m].queued
    ensures
      var w, a, b, from := ws[m], steps[k].a, steps[k].b, ws[m].start + steps[k].end;
      && from < b <= w.queued <= |w.stream|
      && w.route.sent + w.route.batch + w.route.pending
         == w.stream[a..b - 1] + [w.stream[b - 1]] + w.stream[from..b - 1] + [w.stream[b - 1]] + w.stream[b..w.queued]
  {
    SplicedSince(ws, steps, k, m);
    hide Run, Inv;
    RepeatsAt(ws[m], steps[k].a, steps[k].b, steps[k].end);
  }

  // What an overtaking replay left behind is still so later.
  lemma SplicedSince(ws: seq<World>, steps: seq<Step>, k: nat, m: nat)
    requires Run(ws, steps) && k < |steps| && steps[k].Completes? && k < m < |ws|
    requires ws[k].queued < steps[k].b
    ensures Inv(ws[m]) && ws[m].splice == Some(Splice(steps[k].a, steps[k].b, steps[k].end))
    ensures ws[m].start + steps[k].end < steps[k].b
  {
    RunKeepsInv(ws, steps, k);
    RunKeepsInv(ws, steps, m);
    assert ws[k + 1] == Next(ws[k], steps[k]);
    EndsInQueue(ws[k], steps[k].a, steps[k].b, steps[k].end, steps[k].length);
    hide Inv, BestEnd;
    SpliceStays(ws, steps, k + 1, m);
  }

  lemma RepeatsAt(w: World, a: nat, b: nat, end: nat)
    requires Inv(w) && w.splice == Some(Splice(a, b, end)) && a < b && w.start + end < b <= w.queued
    ensures
      var from := w.start + end;
      && w.queued <= |w.stream|
      && w.route.sent + w.route.batch + w.route.pending
         == w.stream[a..b - 1] + [w.stream[b - 1]] + w.stream[from..b - 1] + [w.stream[b - 1]] + w.stream[b..w.queued]
  {
    AllAfterSplice(w, a, b, end);
    hide Inv;
    LastByteTwice(w.stream, a, b, w.start + end, w.queued);
  }

  lemma EndsInQueue(w: World, a: nat, b: nat, end: nat, length: nat)
    requires Inv(w) && Enabled(w, Completes(a, b, end, length))
    ensures w.start + end <= w.queued && Next(w, Completes(a, b, end, length)).start == w.start
  {
    EndsInside(w.stream[a..b], w.route.pending, end, length);
  }

  lemma AllAfterSplice(w: World, a: nat, b: nat, end: nat)
    requires Inv(w) && w.splice == Some(Splice(a, b, end))
    ensures w.queued <= |w.stream| && a <= b <= |w.stream| && w.start + end <= w.queued
    ensures w.route.sent + w.route.batch + w.route.pending == w.stream[a..b] + w.stream[w.start + end..w.queued]
  {
  }

  lemma LastByteTwice(s: Bytes, a: nat, b: nat, from: nat, end: nat)
    requires a < b <= end <= |s| && from < b
    ensures s[a..b] + s[from..end] == s[a..b - 1] + [s[b - 1]] + s[from..b - 1] + [s[b - 1]] + s[b..end]
  {
    TakeLast(s, a, b);
    TakeLast(s, from, b);
    SplitAt(s, from, b, end);
    var first, again, rest := s[a..b - 1], s[from..b - 1], s[b..end];
    Regroup(first, [s[b - 1]], again, [s[b - 1]], rest);
  }

  lemma Regroup(a: Bytes, b: Bytes, c: Bytes, d: Bytes, e: Bytes)
    ensures (a + b) + ((c + d) + e) == a + b + c + d + e
  {
  }

  // The whole story in one: once the events the replay covers have come, the pane has,
  // or is about to have, every byte from the replay's start once and in order, exactly
  // when they had already come when the replay did and had no rival to the true overlap.
  lemma DecidedOnArrival(ws: seq<World>, steps: seq<Step>, k: nat, m: nat)
    requires Run(ws, steps) && k < |steps| && steps[k].Completes?
    requires k < m < |ws| && steps[k].b <= ws[m].queued
    ensures
      var v, w, a, b := ws[k], ws[m], steps[k].a, steps[k].b;
      && Windows(v.stream, a, b, v.start, v.queued) && w.queued <= |w.stream|
      && (w.route.sent + w.route.batch + w.route.pending == w.stream[a..w.queued] <==>
            b <= v.queued && NoRival(v.stream, a, b, v.start, v.queued))
  {
    assert ws[k + 1] == Next(ws[k], steps[k]);
    hide NoRival;
    ReplayJoinsStream(ws, steps, k);
    SpliceStays(ws, steps, k + 1, m);
    ExactlyOnce(ws, steps, m);
  }

  // ---------- What is due is sent ----------

  // The replay from a to b, and the stream from the splice to what was queued by then.
  function Due(stream: Bytes, splice: Splice, start: nat, queued: nat): Bytes
    requires splice.a <= splice.b <= |stream| && start + splice.end <= queued <= |stream|
  {
    stream[splice.a..splice.b] + stream[start + splice.end..queued]
  }

  // A replay that arrives is in the pane at once, and with it what was queued beyond it.
  lemma ReplayIsShown(ws: seq<World>, steps: seq<Step>, k: nat)
    requires Run(ws, steps) && k < |steps| && steps[k].Completes?
    ensures
      var w, splice := ws[k], Splice(steps[k].a, steps[k].b, steps[k].end);
      && splice.a <= splice.b <= |w.stream| && w.start + splice.end <= w.queued <= |w.stream|
      && ws[k + 1].route == Route(false, [], [], Due(w.stream, splice, w.start, w.queued))
  {
    RunKeepsInv(ws, steps, k);
    var w, end := ws[k], steps[k].end;
    EndsInQueue(w, steps[k].a, steps[k].b, end, steps[k].length);
    assert w.stream[w.start..w.queued][end..] == w.stream[w.start + end..w.queued];
  }

  lemma NextKeepsShown(w: World, s: Step, shown: Bytes)
    requires Enabled(w, s) && w.splice.Some? && shown <= w.route.sent + w.route.batch
    ensures shown <= Next(w, s).route.sent + Next(w, s).route.batch
    ensures s.Sends? ==> shown <= Next(w, s).route.sent
  {
    var r := w.route;
    if s.Takes? {
      assert r.sent + r.batch == r.sent;
    } else if s.Sends? {
      assert r.sent + r.batch + [] == r.sent + r.batch;
    }
  }

  // A flush that takes at k, and any send from then on, puts in the pane everything that
  // was queued at k, whatever is printed or queued meanwhile; and nothing more when the
  // send comes right after.
  lemma {:induction false} FlushShowsAll(ws: seq<World>, steps: seq<Step>, k: nat, m: nat)
    requires Run(ws, steps) && k < m < |ws| && steps[k].Takes? && ws[k].splice.Some?
    ensures
      var w := ws[k]; var splice, r := w.splice.value, ws[m].route;
      && splice.a <= splice.b <= |w.stream| && w.start + splice.end <= w.queued <= |w.stream|
      && var due := Due(w.stream, splice, w.start, w.queued);
      && due <= r.sent + r.batch
      && (steps[m - 1].Sends? ==> due <= r.sent)
      && (m == k + 2 && steps[m - 1].Sends? ==> r.sent == due)
    decreases m
  {
    TakenIsDue(ws, steps, k);
    var w := ws[k];
    var due := Due(w.stream, w.splice.value, w.start, w.queued);
    if m > k + 1 {
      FlushShowsAll(ws, steps, k, m - 1);
      SpliceStays(ws, steps, k, m - 1);
      NextKeepsShown(ws[m - 1], steps[m - 1], due);
    }
  }

  lemma TakenIsDue(ws: seq<World>, steps: seq<Step>, k: nat)
    requires Run(ws, steps) && k < |steps| && steps[k].Takes? && ws[k].splice.Some?
    ensures
      var w, splice := ws[k], ws[k].splice.value;
      && splice.a <= splice.b <= |w.stream| && w.start + splice.end <= w.queued <= |w.stream|
      && ws[k + 1].route.sent + ws[k + 1].route.batch == Due(w.stream, splice, w.start, w.queued)
  {
    RunKeepsInv(ws, steps, k);
    var r := ws[k].route;
    assert r.sent + r.batch + r.pending == r.sent + r.pending;
  }

  lemma TakeLast(s: Bytes, a: nat, b: nat)
    requires a < b <= |s|
    ensures s[a..b] == s[a..b - 1] + [s[b - 1]]
  {
  }

  lemma SplitAt(s: Bytes, a: nat, b: nat, c: nat)
    requires a <= b <= c <= |s|
    ensures s[a..c] == s[a..b] + s[b..c]
  {
  }

  // ---------- Which route a pane's bytes go to ----------

  class OutputChannels {
    var routes: map<string, OutputRoute>

    constructor ()
      ensures routes == map[]
    {
      routes := map[];
    }

    // The newest pane takes over: every other session's route goes, and so does
    // an older one of the same session.
    method Register(id: string, replaying: bool) returns (route: OutputRoute)
      modifies this
      ensures fresh(route) && route.Value() == Route(replaying, [], [], [])
      ensures routes == map[id := route]
    {
      route := new OutputRoute(replaying);
      routes := map key | key in routes && key == id :: routes[key];
      routes := routes[id := route];
    }

    // An attach that failed takes its own route back, never a newer one.
    method Remove(id: string, route: OutputRoute)
      modifies this
      ensures routes == if id in old(routes) && old(routes)[id] == route then old(routes) - {id} else old(routes)
    {
      if id in routes && routes[id] == route {
        routes := routes - {id};
      }
    }
  }
}
