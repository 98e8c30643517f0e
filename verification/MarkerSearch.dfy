/**
 * The bounded reader that watches a verifier's stderr for a "connected" marker. It searches chunk by
 * chunk with a carried tail and a byte budget, and must see what a search of the whole stream sees.
 */
module MarkerSearch {
  import opened Prelude
  import opened Bytes

  const CHUNK_BYTES := 4096
  const MAX_BYTES := 64 * 1024

  function Ascii(text: string): (s: seq<Byte>)
    ensures |s| == |text|
  {
    seq(|text|, i requires 0 <= i < |text| => text[i] as int % 256)
  }

  const MARKERS: seq<seq<Byte>> := [
    Ascii("SRT target connected"),
    Ascii("Target connected (caller)"),
    Ascii("Target connected (listener)")
  ]

  datatype Event = Connected | Eof | Overflow | Error

  /**
   * What the environment does when the reader polls: a stop request, an empty wait, a failing read,
   * or a read that would deliver `want` bytes if the reader's limit and the stream allow.
   */
  datatype Poll = Stop | Idle | Fault | Ready(want: nat)

  datatype Outcome = Emitted(event: Event) | Stopped | Waiting

  predicate MatchAt(s: seq<Byte>, i: int, marker: seq<Byte>) {
    0 <= i <= |s| - |marker| && s[i..i + |marker|] == marker
  }

  predicate Contains(s: seq<Byte>, marker: seq<Byte>) {
    exists i :: 0 <= i <= |s| - |marker| && MatchAt(s, i, marker)
  }

  predicate Occurs(s: seq<Byte>) {
    exists m :: 0 <= m < |MARKERS| && Contains(s, MARKERS[m])
  }

  function LongestOf(markers: seq<seq<Byte>>): (n: nat)
    ensures forall m :: 0 <= m < |markers| ==> |markers[m]| <= n
  {
    if markers == [] then 0 else Max(|markers[0]|, LongestOf(markers[1..]))
  }

  /** How many bytes one read delivers: at least one unless the stream is at its end. */
  function ReadLength(data: seq<Byte>, pos: nat, want: nat): (n: nat)
    requires pos <= |data| && pos <= MAX_BYTES
    ensures n <= |data| - pos && n <= CHUNK_BYTES && pos + n <= MAX_BYTES + 1
    ensures n == 0 <==> pos == |data|
  {
    var readSize := Min(CHUNK_BYTES, MAX_BYTES - pos + 1);
    Min(Max(1, want), Min(readSize, |data| - pos))
  }

  /** What one read of a chunk leads to: an event, or a later position without one. */
  datatype ChunkStep = Done(event: Event, pos: nat) | More(pos: nat)

  function AfterChunk(data: seq<Byte>, pos: nat, want: nat): (c: ChunkStep)
    requires pos <= |data| && pos <= MAX_BYTES
    ensures c.More? ==> c.pos <= |data| && c.pos <= MAX_BYTES
  {
    var n := ReadLength(data, pos, want);
    if n == 0 then Done(Eof, pos)
    else if pos + n > MAX_BYTES then Done(Overflow, pos + n)
    else if Occurs(data[..pos + n]) then Done(Connected, pos + n)
    else More(pos + n)
  }

  /**
   * The same reader with no tail: it searches everything read so far, from the start of the stream.
   */
  function PlainSearch(data: seq<Byte>, polls: seq<Poll>, pos: nat): Outcome
    requires pos <= |data| && pos <= MAX_BYTES
    decreases |polls|
  {
    if polls == [] then Waiting
    else
      match polls[0]
      case Stop => Stopped
      case Idle => PlainSearch(data, polls[1..], pos)
      case Fault => Emitted(Error)
      case Ready(want) =>
        match AfterChunk(data, pos, want)
        case Done(event, _) => Emitted(event)
        case More(next) => PlainSearch(data, polls[1..], next)
  }

  /** The last `n` bytes, or everything if there are fewer. */
  function Tail(s: seq<Byte>, n: nat): seq<Byte> {
    if |s| <= n then s else s[|s| - n..]
  }

  // ----- The carried tail loses no match -----

  lemma {:induction false} ContainsSuffix(a: seq<Byte>, b: seq<Byte>, marker: seq<Byte>)
    requires Contains(b, marker)
    ensures Contains(a + b, marker)
  {
    var i :| 0 <= i <= |b| - |marker| && MatchAt(b, i, marker);
    assert (a + b)[|a| + i..|a| + i + |marker|] == b[i..i + |marker|];
    assert MatchAt(a + b, |a| + i, marker);
  }

  /** A match that ends within `seen` is a match in `seen`. */
  lemma {:induction false} MatchInFront(seen: seq<Byte>, chunk: seq<Byte>, i: int, marker: seq<Byte>)
    requires MatchAt(seen + chunk, i, marker) && i + |marker| <= |seen|
    ensures Contains(seen, marker)
  {
    assert seen[i..i + |marker|] == (seen + chunk)[i..i + |marker|];
    assert MatchAt(seen, i, marker);
  }

  /** A match that starts behind `gone` is a match in what follows. */
  lemma {:induction false} MatchBehind(gone: seq<Byte>, rest: seq<Byte>, i: int, marker: seq<Byte>)
    requires MatchAt(gone + rest, i, marker) && |gone| <= i
    ensures Contains(rest, marker)
  {
    var j := i - |gone|;
    assert rest[j..j + |marker|] == (gone + rest)[i..i + |marker|];
    assert MatchAt(rest, j, marker);
  }

  lemma {:induction false} TailLosesNothing(seen: seq<Byte>, chunk: seq<Byte>, marker: seq<Byte>, n: nat)
    requires |marker| <= n + 1 && !Contains(seen, marker)
    ensures Contains(Tail(seen, n) + chunk, marker) <==> Contains(seen + chunk, marker)
  {
    var tail := Tail(seen, n);
    var gone := seen[..|seen| - |tail|];
    assert gone + (tail + chunk) == seen + chunk;
    if Contains(tail + chunk, marker) {
      ContainsSuffix(gone, tail + chunk, marker);
    }
    if Contains(seen + chunk, marker) {
      var i :| 0 <= i <= |seen + chunk| - |marker| && MatchAt(seen + chunk, i, marker);
      // The match ends in the chunk, so it starts within the last n bytes of what was seen.
      if i + |marker| <= |seen| {
        MatchInFront(seen, chunk, i, marker);
      } else {
        MatchBehind(gone, tail + chunk, i, marker);
      }
    }
  }

  lemma {:induction false} WindowSearch(seen: seq<Byte>, chunk: seq<Byte>, n: nat)
    requires n + 1 >= LongestOf(MARKERS) && !Occurs(seen)
    ensures Occurs(Tail(seen, n) + chunk) <==> Occurs(seen + chunk)
  {
    forall m | 0 <= m < |MARKERS|
      ensures Contains(Tail(seen, n) + chunk, MARKERS[m]) <==> Contains(seen + chunk, MARKERS[m])
    {
      TailLosesNothing(seen, chunk, MARKERS[m], n);
    }
  }

  lemma {:induction false} TailOfWindow(seen: seq<Byte>, chunk: seq<Byte>, n: nat)
    ensures Tail(Tail(seen, n) + chunk, n) == Tail(seen + chunk, n)
  {
  }

  lemma {:induction false} NothingOccursInNothing()
    ensures !Occurs([])
  {
  }

  /** Searching the window finds what is in the bytes read so far, and its tail is their tail. */
  lemma {:induction false} WindowIsEnough(data: seq<Byte>, total: nat, n: nat, tail: seq<Byte>, maxTail: nat)
    requires total + n <= |data| && maxTail + 1 >= LongestOf(MARKERS)
    requires tail == Tail(data[..total], maxTail) && !Occurs(data[..total])
    ensures var window := tail + data[total..total + n];
            && (Occurs(window) <==> Occurs(data[..total + n]))
            && Tail(window, maxTail) == Tail(data[..total + n], maxTail)
  {
    var seen, chunk := data[..total], data[total..total + n];
    assert seen + chunk == data[..total + n];
    WindowSearch(seen, chunk, maxTail);
    TailOfWindow(seen, chunk, maxTail);
  }

  /** The carried tail is the tail of what was read, and no marker occurs in what was read. */
  predicate Quiet(data: seq<Byte>, total: nat, tail: seq<Byte>, maxTail: nat)
    requires total <= |data|
  {
    tail == Tail(data[..total], maxTail) && !Occurs(data[..total])
  }

  /** The branch for data that is ready: read, count, and search the window of tail and chunk. */
  method TakeChunk(data: seq<Byte>, total: nat, tail: seq<Byte>, maxTail: nat, want: nat)
    returns (c: ChunkStep, newTail: seq<Byte>)
    requires total <= |data| && total <= MAX_BYTES && maxTail + 1 >= LongestOf(MARKERS)
    requires Quiet(data, total, tail, maxTail)
    ensures c == AfterChunk(data, total, want)
    ensures c.pos <= |data| && c.pos <= MAX_BYTES + 1
    ensures c.More? ==> Quiet(data, c.pos, newTail, maxTail)
    ensures c.Done? ==> match c.event
                        case Connected => c.pos <= MAX_BYTES && Occurs(data[..c.pos])
                        case Eof => c.pos == |data| <= MAX_BYTES && !Occurs(data)
                        case Overflow => c.pos == MAX_BYTES + 1
                        case Error => false
  {
    newTail := tail;
    var n := ReadLength(data, total, want);
    var chunk := data[total..total + n];
    if chunk == [] {
      assert data[..total] == data;
      return Done(Eof, total), newTail;
    }
    if total + |chunk| > MAX_BYTES {
      return Done(Overflow, total + n), newTail;
    }
    var window := tail + chunk;
    WindowIsEnough(data, total, n, tail, maxTail);
    if Occurs(window) {
      return Done(Connected, total + n), newTail;
    }
    newTail := Tail(window, maxTail);
    return More(total + n), newTail;
  }

  /**
   * The reader: it keeps only `total` and `tail`, emits at most one event, and agrees with the
   * search of the whole prefix. `consumed` is how many bytes it has taken from the stream.
   */
  method ReadStderrEvent(data: seq<Byte>, polls: seq<Poll>) returns (outcome: Outcome, consumed: nat)
    ensures outcome == PlainSearch(data, polls, 0)
    ensures consumed <= |data| && consumed <= MAX_BYTES + 1
    ensures outcome == Emitted(Connected) ==> consumed <= MAX_BYTES && Occurs(data[..consumed])
    ensures outcome == Emitted(Eof) ==> consumed == |data| && !Occurs(data)
    ensures outcome == Emitted(Overflow) <==> consumed == MAX_BYTES + 1
  {
    var maxTail := LongestMarker() - 1;
    var tail: seq<Byte> := [];
    var total: nat := 0;
    NothingOccursInNothing();
    var poll := 0;
    while poll < |polls|
      invariant 0 <= poll <= |polls| && total <= |data| && total <= MAX_BYTES
      invariant Quiet(data, total, tail, maxTail)
      invariant PlainSearch(data, polls, 0) == PlainSearch(data, polls[poll..], total)
    {
      var p := polls[poll];
      assert polls[poll..][1..] == polls[poll + 1..];
      poll := poll + 1;
      if p == Stop {
        return Stopped, total;
      }
      if p == Idle {
        continue;
      }
      if p == Fault {
        return Emitted(Error), total;
      }
      var c;
      c, tail := TakeChunk(data, total, tail, maxTail, p.want);
      total := c.pos;
      if c.Done? {
        return Emitted(c.event), total;
      }
    }
    return Waiting, total;
  }

  /** The length of the longest marker. */
  function LongestMarker(): (n: nat)
    ensures n == LongestOf(MARKERS) && n >= 1
  {
    assert |MARKERS[0]| == 20;
    LongestOf(MARKERS)
  }

  // ----- What the events mean for the whole stream, for any chunking -----

  lemma {:induction false} OccursInPrefix(data: seq<Byte>, a: nat, b: nat)
    requires a <= b <= |data| && Occurs(data[..a])
    ensures Occurs(data[..b])
  {
    var m :| 0 <= m < |MARKERS| && Contains(data[..a], MARKERS[m]);
    ContainsPrefix(data[..a], data[a..b], MARKERS[m]);
    assert data[..a] + data[a..b] == data[..b];
  }

  lemma {:induction false} ContainsPrefix(a: seq<Byte>, b: seq<Byte>, marker: seq<Byte>)
    requires Contains(a, marker)
    ensures Contains(a + b, marker)
  {
    var i :| 0 <= i <= |a| - |marker| && MatchAt(a, i, marker);
    assert (a + b)[i..i + |marker|] == a[i..i + |marker|];
    assert MatchAt(a + b, i, marker);
  }

  /** CONNECTED is true of the stream, EOF means that no marker occurs in it anywhere. */
  lemma {:induction false} EventsAreTrue(data: seq<Byte>, polls: seq<Poll>, pos: nat)
    requires pos <= |data| && pos <= MAX_BYTES && !Occurs(data[..pos])
    ensures var o := PlainSearch(data, polls, pos);
            && (o == Emitted(Connected) ==> exists e :: pos < e <= MAX_BYTES && e <= |data| && Occurs(data[..e]))
            && (o == Emitted(Eof) ==> |data| <= MAX_BYTES && !Occurs(data))
            && (o == Emitted(Overflow) ==>
                  (|data| > MAX_BYTES && exists b :: MAX_BYTES + 1 - CHUNK_BYTES <= b <= MAX_BYTES && !Occurs(data[..b])))
    decreases |polls|
  {
    if polls != [] && polls[0].Idle? {
      EventsAreTrue(data, polls[1..], pos);
    } else if polls != [] && polls[0].Ready? {
      var n := ReadLength(data, pos, polls[0].want);
      if n == 0 {
        assert data[..pos] == data;
      } else if pos + n <= MAX_BYTES && !Occurs(data[..pos + n]) {
        EventsAreTrue(data, polls[1..], pos + n);
      }
    }
  }

  // ----- When the reader goes on, and when it ends -----

  /** How far the reads of these polls take the reader, whatever they find. */
  function Position(data: seq<Byte>, polls: seq<Poll>): (n: nat)
    ensures n <= |data|
  {
    if polls == [] then 0
    else
      var pos := Position(data, polls[..|polls| - 1]);
      var last := polls[|polls| - 1];
      if last.Ready? && pos <= MAX_BYTES then pos + ReadLength(data, pos, last.want) else pos
  }

  /** Nothing has ended the reader: no stop, no fault, no empty read, no overflow and no marker. */
  predicate GoesOn(data: seq<Byte>, polls: seq<Poll>) {
    && (forall i :: 0 <= i < |polls| ==> polls[i].Idle? || polls[i].Ready?)
    && (forall i :: 0 <= i < |polls| && polls[i].Ready? ==> Position(data, polls[..i]) < |data|)
    && Position(data, polls) <= MAX_BYTES
    && !Occurs(data[..Position(data, polls)])
  }

  lemma {:induction false} PositionGrows(data: seq<Byte>, polls: seq<Poll>, i: nat)
    requires i <= |polls|
    ensures Position(data, polls[..i]) <= Position(data, polls)
  {
    if i < |polls| {
      PositionGrows(data, polls[..|polls| - 1], i);
      assert polls[..|polls| - 1][..i] == polls[..i];
    } else {
      assert polls[..i] == polls;
    }
  }

  lemma {:induction false} GoesOnBefore(data: seq<Byte>, polls: seq<Poll>, i: nat)
    requires i <= |polls| && GoesOn(data, polls)
    ensures GoesOn(data, polls[..i])
  {
    var front := polls[..i];
    PositionGrows(data, polls, i);
    if Occurs(data[..Position(data, front)]) {
      OccursInPrefix(data, Position(data, front), Position(data, polls));
    }
    forall k | 0 <= k < |front| && front[k].Ready? ensures Position(data, front[..k]) < |data| {
      assert front[..k] == polls[..k];
    }
  }

  lemma {:induction false} PositionAfter(data: seq<Byte>, front: seq<Poll>, p: Poll)
    ensures Position(data, front + [p]) ==
            if p.Ready? && Position(data, front) <= MAX_BYTES
            then Position(data, front) + ReadLength(data, Position(data, front), p.want)
            else Position(data, front)
  {
    assert (front + [p])[..|front|] == front;
  }

  lemma {:induction false} EarlierPolls(front: seq<Poll>, p: Poll, k: nat)
    requires k <= |front|
    ensures (front + [p])[..k] == front[..k]
  {
  }

  /** One more poll while the reader goes on. */
  lemma {:induction false} NextPoll(data: seq<Byte>, front: seq<Poll>, p: Poll)
    requires GoesOn(data, front)
    ensures GoesOn(data, front + [p]) <==>
            p == Idle || (p.Ready? && AfterChunk(data, Position(data, front), p.want).More?)
    ensures Position(data, front + [p]) ==
            if p.Ready? then Position(data, front) + ReadLength(data, Position(data, front), p.want)
            else Position(data, front)
  {
    PositionAfter(data, front, p);
    EarlierPolls(front, p, |front|);
    if GoesOn(data, front + [p]) {
      assert (front + [p])[|front|] == p;
    } else if p == Idle || (p.Ready? && AfterChunk(data, Position(data, front), p.want).More?) {
      NextGoesOn(data, front, p);
    }
  }

  lemma {:induction false} NextGoesOn(data: seq<Byte>, front: seq<Poll>, p: Poll)
    requires GoesOn(data, front)
    requires p == Idle || (p.Ready? && AfterChunk(data, Position(data, front), p.want).More?)
    ensures GoesOn(data, front + [p])
  {
    NextIsQuiet(data, front, p);
    NextDelivers(data, front, p);
  }

  lemma {:induction false} NextIsQuiet(data: seq<Byte>, front: seq<Poll>, p: Poll)
    requires GoesOn(data, front)
    requires p == Idle || (p.Ready? && AfterChunk(data, Position(data, front), p.want).More?)
    ensures p.Ready? ==> Position(data, front) < |data|
    ensures Position(data, front + [p]) <= MAX_BYTES && !Occurs(data[..Position(data, front + [p])])
  {
    PositionAfter(data, front, p);
  }

  lemma {:induction false} NextDelivers(data: seq<Byte>, front: seq<Poll>, p: Poll)
    requires GoesOn(data, front) && (p.Ready? ==> Position(data, front) < |data|)
    ensures forall k :: 0 <= k < |front + [p]| && (front + [p])[k].Ready? ==> Position(data, (front + [p])[..k]) < |data|
  {
    var polls := front + [p];
    forall k | 0 <= k < |polls| && polls[k].Ready? ensures Position(data, polls[..k]) < |data| {
      EarlierPolls(front, p, k);
      if k == |front| {
        assert front[..k] == front;
      } else {
        assert polls[k] == front[k];
      }
    }
  }

  /** A poll that does not end the reader. */
  lemma {:induction false} Onward(data: seq<Byte>, front: seq<Poll>, polls: seq<Poll>)
    requires polls != [] && GoesOn(data, front) && GoesOn(data, front + [polls[0]])
    ensures PlainSearch(data, polls, Position(data, front))
            == PlainSearch(data, polls[1..], Position(data, front + [polls[0]]))
  {
    NextPoll(data, front, polls[0]);
    OnePoll(data, polls, Position(data, front));
  }

  lemma {:induction false} OnePoll(data: seq<Byte>, polls: seq<Poll>, pos: nat)
    requires polls != [] && pos <= |data| && pos <= MAX_BYTES
    requires polls[0] == Idle || (polls[0].Ready? && AfterChunk(data, pos, polls[0].want).More?)
    ensures PlainSearch(data, polls, pos)
            == PlainSearch(data, polls[1..], if polls[0] == Idle then pos else pos + ReadLength(data, pos, polls[0].want))
  {
  }

  /** The search over all polls is the search over the last ones from where the first ones lead. */
  lemma {:induction false} SearchFrom(data: seq<Byte>, polls: seq<Poll>, i: nat)
    requires i <= |polls| && GoesOn(data, polls[..i])
    ensures PlainSearch(data, polls, 0) == PlainSearch(data, polls[i..], Position(data, polls[..i]))
  {
    if i == 0 {
      assert polls[0..] == polls;
    } else {
      PollsSplit(polls, i - 1);
      GoesOnBefore(data, polls[..i], i - 1);
      SearchFrom(data, polls, i - 1);
      Onward(data, polls[..i - 1], polls[i - 1..]);
    }
  }

  lemma {:induction false} PollsSplit(polls: seq<Poll>, k: nat)
    requires k < |polls|
    ensures polls[..k + 1] == polls[..k] + [polls[k..][0]] && polls[..k + 1][..k] == polls[..k]
    ensures polls[k..][1..] == polls[k + 1..]
  {
  }

  /** What the poll `p` makes of a reader that went on before it and does not go on after it. */
  ghost predicate Ends(data: seq<Byte>, front: seq<Poll>, p: Poll, o: Outcome) {
    var pos, next := Position(data, front), Position(data, front + [p]);
    match p
    case Stop => o == Stopped
    case Fault => o == Emitted(Error)
    case Idle => false
    case Ready(_) =>
      || (pos == |data| && o == Emitted(Eof))
      || (pos < |data| && next > MAX_BYTES && o == Emitted(Overflow))
      || (pos < |data| && next <= MAX_BYTES && Occurs(data[..next]) && o == Emitted(Connected))
  }

  lemma {:induction false} NoFurther(data: seq<Byte>, front: seq<Poll>, polls: seq<Poll>)
    requires polls != [] && GoesOn(data, front) && !GoesOn(data, front + [polls[0]])
    ensures Ends(data, front, polls[0], PlainSearch(data, polls, Position(data, front)))
  {
    NextPoll(data, front, polls[0]);
  }

  /**
   * Every outcome has its one cause. The first poll after which the reader cannot go on decides: a stop
   * request, a failing read, or a read that meets the end of the stream, the budget or a marker. Without
   * such a poll the reader is still waiting.
   */
  lemma {:induction false} OutcomeIsExact(data: seq<Byte>, polls: seq<Poll>) returns (i: nat)
    ensures i <= |polls| && GoesOn(data, polls[..i])
    ensures PlainSearch(data, polls, 0) == Waiting <==> i == |polls|
    ensures i < |polls| ==> !GoesOn(data, polls[..i + 1])
    ensures i < |polls| ==> Ends(data, polls[..i], polls[i], PlainSearch(data, polls, 0))
  {
    i := LastStep(data, polls);
    SearchFrom(data, polls, i);
    if i < |polls| {
      assert polls[..i + 1] == polls[..i] + [polls[i]];
      NoFurther(data, polls[..i], polls[i..]);
    }
  }

  /** How many polls the reader survives. */
  lemma {:induction false} LastStep(data: seq<Byte>, polls: seq<Poll>) returns (i: nat)
    ensures i <= |polls| && GoesOn(data, polls[..i])
    ensures i < |polls| ==> !GoesOn(data, polls[..i + 1])
  {
    NothingOccursInNothing();
    i := 0;
    assert polls[..0] == [] && data[..0] == [];
    while i < |polls| && GoesOn(data, polls[..i + 1])
      invariant i <= |polls| && GoesOn(data, polls[..i])
    {
      i := i + 1;
    }
  }

  /** Still waiting means that nothing in the polls or in the bytes read could end the reader. */
  lemma {:induction false} WaitingIsExact(data: seq<Byte>, polls: seq<Poll>)
    ensures PlainSearch(data, polls, 0) == Waiting <==> GoesOn(data, polls)
  {
    var i := OutcomeIsExact(data, polls);
    assert polls[..|polls|] == polls;
    if i < |polls| && GoesOn(data, polls) {
      GoesOnBefore(data, polls, i + 1);
    }
  }

  function WithoutIdle(polls: seq<Poll>): seq<Poll> {
    if polls == [] then []
    else if polls[0] == Idle then WithoutIdle(polls[1..])
    else [polls[0]] + WithoutIdle(polls[1..])
  }

  /** Empty waits change nothing, however many there are and wherever they stand. */
  lemma {:induction false} IdleIsUnobservable(data: seq<Byte>, polls: seq<Poll>, pos: nat)
    requires pos <= |data| && pos <= MAX_BYTES
    ensures PlainSearch(data, polls, pos) == PlainSearch(data, WithoutIdle(polls), pos)
    decreases |polls|
  {
    if polls != [] && polls[0] == Idle {
      IdleIsUnobservable(data, polls[1..], pos);
    } else if polls != [] && polls[0].Ready? && AfterChunk(data, pos, polls[0].want).More? {
      IdleIsUnobservable(data, polls[1..], AfterChunk(data, pos, polls[0].want).pos);
      assert WithoutIdle(polls)[1..] == WithoutIdle(polls[1..]);
    }
  }

  function Reads(polls: seq<Poll>): (n: nat)
    ensures n <= |polls|
  {
    if polls == [] then 0
    else Reads(polls[..|polls| - 1]) + if polls[|polls| - 1].Ready? then 1 else 0
  }

  /** Every read that does not end the reader takes at least one byte. */
  lemma {:induction false} ReadsAdvance(data: seq<Byte>, polls: seq<Poll>)
    requires GoesOn(data, polls)
    ensures Reads(polls) <= Position(data, polls)
  {
    if polls != [] {
      var n := |polls| - 1;
      GoesOnBefore(data, polls, n);
      ReadsAdvance(data, polls[..n]);
    }
  }

  /** Undisturbed, the reader reaches a verdict as soon as there are more reads than bytes it may take. */
  lemma {:induction false} EnoughReadsDecide(data: seq<Byte>, polls: seq<Poll>)
    requires forall i :: 0 <= i < |polls| ==> polls[i] != Stop && polls[i] != Fault
    requires Reads(polls) > Min(|data|, MAX_BYTES)
    ensures Decided(PlainSearch(data, polls, 0))
  {
    var i := OutcomeIsExact(data, polls);
    WaitingIsExact(data, polls);
    if i == |polls| {
      ReadsAdvance(data, polls);
    }
  }

  /** The reader reached a verdict about the stream. */
  predicate Decided(o: Outcome) {
    o.Emitted? && o.event != Error
  }

  /** A stream within the budget is decided by its content alone, however it is cut into chunks. */
  lemma {:induction false} ShortStreamVerdict(data: seq<Byte>, polls: seq<Poll>)
    requires |data| <= MAX_BYTES && Decided(PlainSearch(data, polls, 0))
    ensures PlainSearch(data, polls, 0) == Emitted(if Occurs(data) then Connected else Eof)
  {
    NothingOccursInNothing();
    assert data[..0] == [];
    EventsAreTrue(data, polls, 0);
    if PlainSearch(data, polls, 0) == Emitted(Connected) {
      var e :| 0 < e <= MAX_BYTES && e <= |data| && Occurs(data[..e]);
      OccursInPrefix(data, e, |data|);
      assert data[..|data|] == data;
    }
  }

  /**
   * The stream outgrows the budget and its first marker ends within the last chunk length of the
   * budget.
   */
  predicate LateMarker(data: seq<Byte>) {
    && |data| > MAX_BYTES
    && Occurs(data[..MAX_BYTES])
    && !Occurs(data[..MAX_BYTES + 1 - CHUNK_BYTES])
  }

  /** The verdict of a stream whose verdict does not depend on the chunks. */
  function Verdict(data: seq<Byte>): Event {
    if |data| <= MAX_BYTES then (if Occurs(data) then Connected else Eof)
    else if Occurs(data[..MAX_BYTES]) then Connected
    else Overflow
  }

  lemma {:induction false} UsualVerdict(data: seq<Byte>, polls: seq<Poll>)
    requires !LateMarker(data) && Decided(PlainSearch(data, polls, 0))
    ensures PlainSearch(data, polls, 0) == Emitted(Verdict(data))
  {
    NothingOccursInNothing();
    assert data[..0] == [];
    if |data| <= MAX_BYTES {
      ShortStreamVerdict(data, polls);
    } else {
      EventsAreTrue(data, polls, 0);
      var o := PlainSearch(data, polls, 0);
      if o == Emitted(Connected) {
        var e :| 0 < e <= MAX_BYTES && e <= |data| && Occurs(data[..e]);
        OccursInPrefix(data, e, MAX_BYTES);
      } else if o == Emitted(Overflow) && Occurs(data[..MAX_BYTES]) {
        var b :| MAX_BYTES + 1 - CHUNK_BYTES <= b <= MAX_BYTES && !Occurs(data[..b]);
        OccursInPrefix(data, MAX_BYTES + 1 - CHUNK_BYTES, b);
      }
    }
  }

  /** `n` reads of a single byte each. */
  function SingleBytes(n: nat): (polls: seq<Poll>)
    ensures |polls| == n
  {
    if n == 0 then [] else [Ready(1)] + SingleBytes(n - 1)
  }

  /** Reading byte by byte up to a position without a marker leads to that position. */
  lemma {:induction false} QuietBytes(data: seq<Byte>, n: nat, pos: nat, rest: seq<Poll>)
    requires pos + n < |data| && pos + n <= MAX_BYTES && !Occurs(data[..pos + n])
    ensures PlainSearch(data, SingleBytes(n) + rest, pos) == PlainSearch(data, rest, pos + n)
    decreases n
  {
    if n == 0 {
      assert SingleBytes(0) + rest == rest;
    } else {
      var polls := SingleBytes(n) + rest;
      assert polls[0] == Ready(1) && polls[1..] == SingleBytes(n - 1) + rest;
      assert !Occurs(data[..pos + 1]) by {
        if Occurs(data[..pos + 1]) {
          OccursInPrefix(data, pos + 1, pos + n);
        }
      }
      QuietByte(data, polls, pos);
      QuietBytes(data, n - 1, pos + 1, rest);
    }
  }

  lemma {:induction false} QuietByte(data: seq<Byte>, polls: seq<Poll>, pos: nat)
    requires pos + 1 < |data| && pos + 1 <= MAX_BYTES && !Occurs(data[..pos + 1])
    requires polls != [] && polls[0] == Ready(1)
    ensures PlainSearch(data, polls, pos) == PlainSearch(data, polls[1..], pos + 1)
  {
    assert ReadLength(data, pos, 1) == 1;
  }

  lemma {:induction false} FirstEnd(data: seq<Byte>, low: nat, high: nat) returns (e: nat)
    requires low < high <= |data| && !Occurs(data[..low]) && Occurs(data[..high])
    ensures low < e <= high && Occurs(data[..e]) && !Occurs(data[..e - 1])
    decreases high - low
  {
    if low + 1 == high {
      e := high;
    } else if Occurs(data[..high - 1]) {
      e := FirstEnd(data, low, high - 1);
    } else {
      e := high;
    }
  }

  /** With a late marker two chunkings of the same stream reach opposite verdicts. */
  lemma {:induction false} LateMarkerDependsOnChunks(data: seq<Byte>) returns (found: seq<Poll>, missed: seq<Poll>)
    requires LateMarker(data)
    ensures PlainSearch(data, found, 0) == Emitted(Connected)
    ensures PlainSearch(data, missed, 0) == Emitted(Overflow)
  {
    var last := MAX_BYTES + 1 - CHUNK_BYTES;
    var e := FirstEnd(data, last, MAX_BYTES);
    found := SingleBytes(e - 1) + [Ready(1)];
    QuietBytes(data, e - 1, 0, [Ready(1)]);
    assert ReadLength(data, e - 1, 1) == 1;
    missed := SingleBytes(last) + [Ready(CHUNK_BYTES)];
    QuietBytes(data, last, 0, [Ready(CHUNK_BYTES)]);
    assert ReadLength(data, last, CHUNK_BYTES) == CHUNK_BYTES;
  }

  ghost predicate IndependentOfChunks(data: seq<Byte>) {
    forall p, q :: Decided(PlainSearch(data, p, 0)) && Decided(PlainSearch(data, q, 0)) ==>
      PlainSearch(data, p, 0) == PlainSearch(data, q, 0)
  }

  /** The verdict is independent of the chunking exactly when there is no late marker. */
  lemma {:induction false} ChunkIndependence(data: seq<Byte>)
    ensures IndependentOfChunks(data) <==> !LateMarker(data)
  {
    if LateMarker(data) {
      var found, missed := LateMarkerDependsOnChunks(data);
    } else {
      forall p, q | Decided(PlainSearch(data, p, 0)) && Decided(PlainSearch(data, q, 0))
        ensures PlainSearch(data, p, 0) == PlainSearch(data, q, 0)
      {
        UsualVerdict(data, p);
        UsualVerdict(data, q);
      }
    }
  }
}
