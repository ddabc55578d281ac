/**
 * The move log of src/puzzle/spin_game_recorder.h and .cpp: a list of
 * events, a replay cursor into it, the start position's text and a
 * recording flag; events are written one per line and replayed onto a game.
 */
module GameRecorder {
  import opened Wrappers
  import opened Text
  import opened Definitions
  import opened SideStatus
  import opened SideSpec
  import opened GameSpec
  import opened GameProps
  import opened PuzzleGame

  /** Recorder::EventType, an int32 enum: a loaded event may carry any code. */
  datatype EventType = EventType(code: int)

  const RotateMarblesEvent := EventType(0)
  const RotateInternalDiskEvent := EventType(1)
  const SpinLeafAngleEvent := EventType(2)
  const SpinLeafEvent := EventType(3)
  const SwapSideEvent := EventType(4)

  /**
   * Recorder::Event.  The leaf is kept as the LEAF code it was stored or read
   * with; the time is always 0, the value the constructor gives when
   * timestamps are not compiled in.
   */
  datatype Event = Event(kind: EventType, angle: real, leaf: int, time: nat)

  /** Event(eventType, angle, leaf). */
  function NewEvent(kind: EventType, angle: real, leaf: Leaf): (e: Event)
    ensures e.kind == kind && e.angle == angle && e.leaf == leaf.Code() && e.time == 0
  {
    Event(kind, angle, leaf.Code(), 0)
  }

  const Int32Bound: int := 0x8000_0000
  const SizeBound: int := 0x1_0000_0000_0000_0000

  predicate InInt32(i: int) {
    -Int32Bound <= i < Int32Bound
  }

  /** The fields an extraction can read back: int32 codes and a size_t time. */
  predicate Storable(e: Event) {
    InInt32(e.kind.code) && InInt32(e.leaf) && e.time < SizeBound
  }

  /** Fields written with a space between each two and a '\n' after the last. */
  function Line(fields: seq<string>): (text: string)
    requires |fields| > 0
    decreases |fields|
  {
    if |fields| == 1 then fields[0] + "\n" else fields[0] + " " + Line(fields[1..])
  }

  /**
   * Event::serialize: "type angle leaf time\n", with time written as 0 when
   * times is false.  How the angle is printed (at digits10 precision) is the
   * parameter fmt.
   */
  function EventText(e: Event, times: bool, fmt: real -> string): (text: string)
  {
    Line([IntToString(e.kind.code), fmt(e.angle), IntToString(e.leaf), NatToString(if times then e.time else 0)])
  }

  /** n successive extractions of a word with operator>>. */
  function ReadWords(st: Stream, n: nat): (r: Option<(seq<string>, Stream)>)
    ensures r.Some? ==> |r.value.0| == n
    decreases n
  {
    if n == 0 then Some(([], st))
    else
      var (w, next) := ReadWord(st);
      if w.None? then None
      else
        var more := ReadWords(next, n - 1);
        if more.None? then None else Some(([w.value] + more.value.0, more.value.1))
  }

  /** A word operator>> accepts for an int32. */
  function Int32Value(w: string): (r: Option<int>)
    ensures r.Some? ==> InInt32(r.value)
  {
    var v := ParseInt(w);
    if v.Some? && InInt32(v.value) then v else None
  }

  /** A word operator>> accepts for a size_t. */
  function SizeValue(w: string): (r: Option<nat>)
    ensures r.Some? ==> r.value < SizeBound
  {
    var v := ParseNat(w);
    if v.Some? && v.value < SizeBound then v else None
  }

  /** operator>> into a size_t. */
  function ReadSize(st: Stream): (r: Option<(nat, Stream)>)
    ensures r.Some? ==> r.value.0 < SizeBound
  {
    var (w, next) := ReadWord(st);
    if w.None? || SizeValue(w.value).None? then None else Some((SizeValue(w.value).value, next))
  }

  /**
   * Event::load: type, angle, leaf and time are extracted in that order; the
   * angle's word is read by the parameter parse.  Any failed extraction gives
   * None (the source then holds indeterminate values).
   */
  function LoadEvent(st: Stream, parse: string -> Option<real>): (r: Option<(Event, Stream)>)
    ensures r.Some? ==> Storable(r.value.0)
  {
    var words := ReadWords(st, 4);
    if words.None? then None
    else
      var w := words.value.0;
      var kind, angle, leaf, time := Int32Value(w[0]), parse(w[1]), Int32Value(w[2]), SizeValue(w[3]);
      if kind.None? || angle.None? || leaf.None? || time.None? then None
      else Some((Event(EventType(kind.value), angle.value, leaf.value, time.value), words.value.1))
  }

  /** The event as a load reads it back: the angle as parse reads fmt's text, the time as written. */
  function Reloaded(e: Event, times: bool, angle: real): Event {
    e.(angle := angle, time := if times then e.time else 0)
  }

  /** A printed angle that reads back as one word. */
  predicate AngleReadable(a: real, fmt: real -> string, parse: string -> Option<real>) {
    IsWord(fmt(a)) && parse(fmt(a)).Some?
  }

  /** A size_t written by operator<< is read back by operator>>. */
  lemma SizeBack(pre: string, n: nat, sep: char, tail: string)
    requires forall k :: 0 <= k < |pre| ==> IsSpace(pre[k])
    requires n < SizeBound && IsSpace(sep)
    ensures ReadSize(Open(pre + (NatToString(n) + ([sep] + tail)))) == Some((n, Open([sep] + tail)))
  {
    assert IsWord(NatToString(n));
    ReadWordBack(pre, NatToString(n), sep, tail);
    ParseNatToString(n);
  }

  /** One more word in front of words already read back. */
  lemma ReadWordsStep(pre: string, w: string, sep: char, tail: string, n: nat, ws: seq<string>, st: Stream)
    requires forall k :: 0 <= k < |pre| ==> IsSpace(pre[k])
    requires IsWord(w) && IsSpace(sep)
    requires ReadWords(Open([sep] + tail), n) == Some((ws, st))
    ensures ReadWords(Open(pre + (w + ([sep] + tail))), n + 1) == Some(([w] + ws, st))
  {
    ReadWordBack(pre, w, sep, tail);
  }

  /** The words of a line are extracted in order, up to the '\n' that ends it. */
  lemma {:induction false} LineBack(pre: string, ws: seq<string>, tail: string)
    requires forall k :: 0 <= k < |pre| ==> IsSpace(pre[k])
    requires |ws| > 0 && forall i :: 0 <= i < |ws| ==> IsWord(ws[i])
    ensures ReadWords(Open(pre + (Line(ws) + tail)), |ws|) == Some((ws, Open("\n" + tail)))
    decreases |ws|
  {
    var end := Open("\n" + tail);
    if |ws| == 1 {
      assert Line(ws) + tail == ws[0] + (['\n'] + tail);
      assert ReadWords(end, 0) == Some(([], end));
      ReadWordsStep(pre, ws[0], '\n', tail, 0, [], end);
      assert [ws[0]] + [] == ws;
    } else {
      var more := Line(ws[1..]) + tail;
      assert Line(ws) + tail == ws[0] + ([' '] + more);
      LineBack([' '], ws[1..], tail);
      ReadWordsStep(pre, ws[0], ' ', more, |ws| - 1, ws[1..], end);
      assert [ws[0]] + ws[1..] == ws;
    }
  }

  /**
   * Event::serialize then Event::load: type, leaf and time (or 0) come back
   * exactly and the angle as its text parses; the stream stops at the '\n'.
   */
  lemma EventBack(pre: string, e: Event, times: bool, fmt: real -> string, parse: string -> Option<real>, tail: string)
    requires forall i :: 0 <= i < |pre| ==> IsSpace(pre[i])
    requires Storable(e) && AngleReadable(e.angle, fmt, parse)
    ensures LoadEvent(Open(pre + (EventText(e, times, fmt) + tail)), parse)
      == Some((Reloaded(e, times, parse(fmt(e.angle)).value), Open("\n" + tail)))
  {
    var t := if times then e.time else 0;
    var w1, w2, w3, w4 := IntToString(e.kind.code), fmt(e.angle), IntToString(e.leaf), NatToString(t);
    assert IsWord(w4);
    LineBack(pre, [w1, w2, w3, w4], tail);
    ParseIntToString(e.kind.code);
    ParseIntToString(e.leaf);
    ParseNatToString(t);
  }

  /** Event::serialize as a writer of one event. */
  function EventWriter(times: bool, fmt: real -> string): Event -> string {
    e => EventText(e, times, fmt)
  }

  /** The lines write gives the events, one after the other. */
  function Joined(es: seq<Event>, write: Event -> string): string
  {
    if es == [] then "" else write(es[0]) + Joined(es[1..], write)
  }

  /** The event lines of Recorder::serialize. */
  function EventsText(es: seq<Event>, times: bool, fmt: real -> string): string
  {
    Joined(es, EventWriter(times, fmt))
  }

  lemma {:induction false} JoinedSnoc(es: seq<Event>, e: Event, write: Event -> string)
    ensures Joined(es + [e], write) == Joined(es, write) + write(e)
    decreases |es|
  {
    if es == [] {
      assert es + [e] == [e];
      assert [e][1..] == [];
    } else {
      assert (es + [e])[1..] == es[1..] + [e];
      JoinedSnoc(es[1..], e, write);
    }
  }

  /** Event::load as a reader of the stream. */
  function EventReader(parse: string -> Option<real>): Stream -> Option<(Event, Stream)> {
    st => LoadEvent(st, parse)
  }

  /**
   * The load loop: n more events, each read by load and pushed onto the
   * events read so far; None as soon as one fails.
   */
  function LoadEvents(st: Stream, n: nat, read: seq<Event>, load: Stream -> Option<(Event, Stream)>): (r: Option<(seq<Event>, Stream)>)
    ensures r.Some? ==> |r.value.0| == |read| + n
    decreases n
  {
    if n == 0 then Some((read, st))
    else
      var first := load(st);
      if first.None? then None else LoadEvents(first.value.1, n - 1, read + [first.value.0], load)
  }

  predicate AllStorable(es: seq<Event>, fmt: real -> string, parse: string -> Option<real>) {
    forall i :: 0 <= i < |es| ==> Storable(es[i]) && AngleReadable(es[i].angle, fmt, parse)
  }

  /** Every event as it is read back. */
  function AllReloaded(es: seq<Event>, times: bool, fmt: real -> string, parse: string -> Option<real>): (r: seq<Event>)
    requires AllStorable(es, fmt, parse)
    ensures |r| == |es|
  {
    seq(|es|, i requires 0 <= i < |es| => Reloaded(es[i], times, parse(fmt(es[i].angle)).value))
  }

  /**
   * Lines written one after the other are read back in order, after any
   * events read before them, when load reads back each line whatever
   * follows it.
   */
  lemma {:induction false} JoinedBack(es: seq<Event>, back: seq<Event>, read: seq<Event>, write: Event -> string,
                                      load: Stream -> Option<(Event, Stream)>, tail: string)
    requires |back| == |es|
    requires forall i, rest :: 0 <= i < |es| ==> load(Open("\n" + (write(es[i]) + rest))) == Some((back[i], Open("\n" + rest)))
    ensures LoadEvents(Open("\n" + (Joined(es, write) + tail)), |es|, read, load) == Some((read + back, Open("\n" + tail)))
    decreases |es|
  {
    if es == [] {
      assert Joined(es, write) + tail == tail;
      assert read + back == read;
    } else {
      var rest := Joined(es[1..], write) + tail;
      assert Joined(es, write) + tail == write(es[0]) + rest;
      assert load(Open("\n" + (write(es[0]) + rest))) == Some((back[0], Open("\n" + rest)));
      forall i, more | 0 <= i < |es| - 1
        ensures load(Open("\n" + (write(es[1..][i]) + more))) == Some((back[1..][i], Open("\n" + more)))
      {
        assert es[1..][i] == es[i + 1] && back[1..][i] == back[i + 1];
      }
      JoinedBack(es[1..], back[1..], read + [back[0]], write, load, tail);
      assert read + [back[0]] + back[1..] == read + back;
    }
  }

  /** All serialised events are loaded back in order by Event::load. */
  lemma EventsBack(es: seq<Event>, times: bool, fmt: real -> string, parse: string -> Option<real>, tail: string)
    requires AllStorable(es, fmt, parse)
    ensures LoadEvents(Open("\n" + (EventsText(es, times, fmt) + tail)), |es|, [], EventReader(parse))
      == Some((AllReloaded(es, times, fmt, parse), Open("\n" + tail)))
  {
    var back := AllReloaded(es, times, fmt, parse);
    forall i, rest | 0 <= i < |es|
      ensures EventReader(parse)(Open("\n" + (EventWriter(times, fmt)(es[i]) + rest))) == Some((back[i], Open("\n" + rest)))
    {
      EventBack("\n", es[i], times, fmt, parse, rest);
    }
    JoinedBack(es, back, [], EventWriter(times, fmt), EventReader(parse), tail);
    assert [] + back == back;
  }

  /** The state of a Recorder: events, the cursor's index, the start text and the flag. */
  datatype RecorderState = RecorderState(events: seq<Event>, current: nat, start: string, recording: bool)

  /** Recorder::serialize: the start text, the event count on a line, then each event. */
  function RecorderText(r: RecorderState, times: bool, fmt: real -> string): string {
    r.start + (NatToString(|r.events|) + ("\n" + EventsText(r.events, times, fmt)))
  }

  /**
   * Recorder::load: the first line (the game's text), then a count and that
   * many events.  The events are None when an extraction fails.
   */
  function RecorderLoad(text: string, parse: string -> Option<real>): (r: (string, Option<seq<Event>>))
  {
    var (game, s1) := ReadInto(Open(text), "");
    var size := ReadSize(s1);
    if size.None? then (game, None)
    else
      var events := LoadEvents(size.value.1, size.value.0, [], EventReader(parse));
      (game, if events.None? then None else Some(events.value.0))
  }

  /**
   * serialize then load: when the start text is one line, that line comes
   * back, and so does every event (the angle as its text parses, the time
   * as written).
   */
  lemma SerializeLoad(r: RecorderState, line: string, times: bool, fmt: real -> string, parse: string -> Option<real>)
    requires '\n' !in line && r.start == line + "\n"
    requires AllStorable(r.events, fmt, parse) && |r.events| < SizeBound
    ensures RecorderLoad(RecorderText(r, times, fmt), parse) == (line, Some(AllReloaded(r.events, times, fmt, parse)))
  {
    var body := EventsText(r.events, times, fmt);
    var counted := NatToString(|r.events|) + ("\n" + body);
    GetlineLine(line, counted);
    assert [] + (NatToString(|r.events|) + (['\n'] + body)) == counted;
    SizeBack([], |r.events|, '\n', body);
    assert body + "" == body;
    EventsBack(r.events, times, fmt, parse, "");
  }

  /**
   * Recorder::load as written on a recorder whose start text is not empty:
   * the start text after loading a serialised recorder is not the one that
   * was serialised, since the stale text stays in front of it.
   */
  lemma LoadKeepsStaleStart(stale: string, r: RecorderState, line: string, times: bool, fmt: real -> string, parse: string -> Option<real>)
    requires stale != [] && '\n' !in line && r.start == line + "\n"
    requires AllStorable(r.events, fmt, parse) && |r.events| < SizeBound
    ensures stale + RecorderLoad(RecorderText(r, times, fmt), parse).0 + "\n" == stale + r.start
    ensures stale + RecorderLoad(RecorderText(r, times, fmt), parse).0 + "\n" != r.start
  {
    SerializeLoad(r, line, times, fmt, parse);
    assert |stale + r.start| > |r.start|;
  }

  /** Whether replaying an event is defined: rotations and spins name one of the three leaves. */
  predicate Playable(e: Event) {
    e.kind in {RotateMarblesEvent, SpinLeafAngleEvent, SpinLeafEvent} ==>
      0 <= e.leaf < NLeaves
  }

  predicate AllPlayable(es: seq<Event>) {
    forall i :: 0 <= i < |es| ==> Playable(es[i])
  }

  /** The leaf an event names. */
  function EventLeaf(e: Event): (l: Leaf)
    requires 0 <= e.leaf < NLeaves
    ensures l.IsSection() && l.Code() == e.leaf
  {
    LeafFromCode(e.leaf).value
  }

  /**
   * One step of play: ROTATE_MARBLES, ROTATE_INTERNAL_DISK, SPIN_LEAF_ANGLE
   * (with the stored angle), SPIN_LEAF (with the default 180) and SWAP_SIDE
   * call the game's method of that name; any other code does nothing.
   */
  function ApplyEvent(g: GameState, e: Event): (r: GameState)
    requires g.Valid() && Playable(e)
    ensures r.Valid()
  {
    if e.kind == RotateMarblesEvent then GameSpec.RotateMarbles(g, EventLeaf(e), e.angle).1
    else if e.kind == RotateInternalDiskEvent then GameSpec.RotateInternalDisk(g, e.angle).1
    else if e.kind == SpinLeafAngleEvent then GameSpec.SpinLeaf(g, EventLeaf(e), e.angle).1
    else if e.kind == SpinLeafEvent then GameSpec.SpinLeaf(g, EventLeaf(e), 180.0).1
    else if e.kind == SwapSideEvent then GameSpec.SwapSide(g)
    else g
  }

  /** A run of events applied in order. */
  function ApplyAll(g: GameState, es: seq<Event>): (r: GameState)
    requires g.Valid() && AllPlayable(es)
    ensures r.Valid()
    decreases |es|
  {
    if es == [] then g else ApplyEvent(ApplyAll(g, es[..|es| - 1]), es[|es| - 1])
  }

  /** Playing es[i..j + 1] is playing es[i..j], then es[j]. */
  lemma ApplyAllStep(g: GameState, es: seq<Event>, i: nat, j: nat)
    requires g.Valid() && AllPlayable(es) && i <= j < |es|
    ensures AllPlayable(es[i..j]) && AllPlayable(es[i..j + 1])
    ensures ApplyAll(g, es[i..j + 1]) == ApplyEvent(ApplyAll(g, es[i..j]), es[j])
  {
    var s := es[i..j + 1];
    assert s[..|s| - 1] == es[i..j];
    assert s[|s| - 1] == es[j];
    assert ApplyAll(g, s) == ApplyEvent(ApplyAll(g, s[..|s| - 1]), s[|s| - 1]);
  }

  /** Playing two runs one after the other is playing their concatenation. */
  lemma {:induction false} ApplyAllSplit(g: GameState, a: seq<Event>, b: seq<Event>)
    requires g.Valid() && AllPlayable(a) && AllPlayable(b)
    ensures AllPlayable(a + b)
    ensures ApplyAll(g, a + b) == ApplyAll(ApplyAll(g, a), b)
    decreases |b|
  {
    assert AllPlayable(a + b) by {
      forall i | 0 <= i < |a + b|
        ensures Playable((a + b)[i])
      {
        if i >= |a| {
          assert (a + b)[i] == b[i - |a|];
        }
      }
    }
    if b == [] {
      assert a + b == a;
    } else {
      var b0 := b[..|b| - 1];
      assert (a + b)[..|a + b| - 1] == a + b0;
      assert (a + b)[|a + b| - 1] == b[|b| - 1];
      ApplyAllSplit(g, a, b0);
    }
  }

  /** The game calls a recorder logs, one per event-append method. */
  datatype Move =
    | TurnLeaf(leaf: Leaf, angle: real)
    | TurnDisk(angle: real)
    | SpinBy(leaf: Leaf, angle: real)
    | Spin(leaf: Leaf)
    | Flip

  predicate MoveValid(m: Move) {
    (m.TurnLeaf? || m.SpinBy? || m.Spin?) ==> m.leaf.IsSection()
  }

  /** What the game call itself does. */
  function PlayMove(g: GameState, m: Move): (r: GameState)
    requires g.Valid() && MoveValid(m)
    ensures r.Valid()
  {
    match m
    case TurnLeaf(leaf, angle) => GameSpec.RotateMarbles(g, leaf, angle).1
    case TurnDisk(angle) => GameSpec.RotateInternalDisk(g, angle).1
    case SpinBy(leaf, angle) => GameSpec.SpinLeaf(g, leaf, angle).1
    case Spin(leaf) => GameSpec.SpinLeaf(g, leaf, 180.0).1
    case Flip => GameSpec.SwapSide(g)
  }

  /** The event the recorder appends for a move, as written: spin_leaf(leaf, angle) logs SPIN_LEAF. */
  function LoggedEvent(m: Move): (e: Event)
    requires MoveValid(m)
    ensures Playable(e) && Storable(e)
  {
    match m
    case TurnLeaf(leaf, angle) => NewEvent(RotateMarblesEvent, angle, leaf)
    case TurnDisk(angle) => NewEvent(RotateInternalDiskEvent, angle, InvalidLeaf)
    case SpinBy(leaf, angle) => NewEvent(SpinLeafEvent, angle, leaf)
    case Spin(leaf) => NewEvent(SpinLeafEvent, 180.0, leaf)
    case Flip => NewEvent(SwapSideEvent, 0.0, InvalidLeaf)
  }

  /** The event spin_leaf(leaf, angle) evidently means to log: SPIN_LEAF_ANGLE, replayed with its angle. */
  function IntendedEvent(m: Move): (e: Event)
    requires MoveValid(m)
    ensures Playable(e) && Storable(e)
  {
    match m
    case SpinBy(leaf, angle) => NewEvent(SpinLeafAngleEvent, angle, leaf)
    case _ => LoggedEvent(m)
  }

  /** Replaying the intended event of a move does what the move did. */
  lemma IntendedEventReplays(g: GameState, m: Move)
    requires g.Valid() && MoveValid(m)
    ensures ApplyEvent(g, IntendedEvent(m)) == PlayMove(g, m)
  {
  }

  /**
   * Replaying a logged event does what the move did, except a spin by an
   * angle, which is replayed as a spin by 180 whatever its angle.
   */
  lemma LoggedEventReplays(g: GameState, m: Move)
    requires g.Valid() && MoveValid(m)
    ensures !m.SpinBy? ==> ApplyEvent(g, LoggedEvent(m)) == PlayMove(g, m)
    ensures m.SpinBy? ==> ApplyEvent(g, LoggedEvent(m)) == PlayMove(g, Spin(m.leaf))
  {
  }

  /**
   * On any game whose NORTH leaf is free and at rest (the default game is
   * one), spin_leaf(NORTH, 45) keeps the marbles but replays as a full flip.
   */
  lemma SpinAngleLost(g: GameState)
    requires g.Valid() && LeafFree(g.Side(g.active), North) && g.spin[0] == 0.0
    ensures ApplyEvent(g, LoggedEvent(SpinBy(North, 45.0))) != PlayMove(g, SpinBy(North, 45.0))
  {
    var kept := SpinShort(g, 45.0, 45.0);
    var flipped := SpinOver(g, 180.0, 0.0);
    var e := LoggedEvent(SpinBy(North, 45.0));
    assert e.kind == SpinLeafEvent && EventLeaf(e) == North;
    assert ApplyEvent(g, e) == flipped;
    assert PlayMove(g, SpinBy(North, 45.0)) == kept;
    assert kept.spin[0] != flipped.spin[0];
  }

  /** The default game meets SpinAngleLost's condition. */
  lemma DefaultNorthFree()
    ensures var g := DefaultGame(); g.Valid() && LeafFree(g.Side(g.active), North) && g.spin[0] == 0.0
  {
    assert DefaultGame().front.status == InitialStatus();
  }

  function Played(g: GameState, ms: seq<Move>): (r: GameState)
    requires g.Valid() && forall i :: 0 <= i < |ms| ==> MoveValid(ms[i])
    ensures r.Valid()
    decreases |ms|
  {
    if ms == [] then g else PlayMove(Played(g, ms[..|ms| - 1]), ms[|ms| - 1])
  }

  function IntendedLog(ms: seq<Move>): (es: seq<Event>)
    requires forall i :: 0 <= i < |ms| ==> MoveValid(ms[i])
    ensures |es| == |ms| && AllPlayable(es)
  {
    seq(|ms|, i requires 0 <= i < |ms| && MoveValid(ms[i]) => IntendedEvent(ms[i]))
  }

  /** A session logged with the intended events replays from its start position to its end position. */
  lemma {:induction false} IntendedSessionReplays(g: GameState, ms: seq<Move>)
    requires g.Valid() && forall i :: 0 <= i < |ms| ==> MoveValid(ms[i])
    ensures ApplyAll(g, IntendedLog(ms)) == Played(g, ms)
    decreases |ms|
  {
    if ms != [] {
      var m0 := ms[..|ms| - 1];
      assert IntendedLog(ms)[..|ms| - 1] == IntendedLog(m0);
      IntendedSessionReplays(g, m0);
      IntendedEventReplays(Played(g, m0), ms[|ms| - 1]);
    }
  }

  /** The one step of play's switch. */
  method Dispatch(game: SpinPuzzleGame, e: Event)
    requires game.Valid() && Playable(e)
    modifies game, game.spin, game.front.marbles, game.front.status, game.back.marbles, game.back.status
    ensures game.Valid() && game.State() == ApplyEvent(old(game.State()), e)
  {
    if e.kind == RotateMarblesEvent {
      var _ := game.RotateMarbles(EventLeaf(e), e.angle);
    } else if e.kind == RotateInternalDiskEvent {
      var _ := game.RotateInternalDisk(e.angle);
    } else if e.kind == SpinLeafAngleEvent {
      var _ := game.SpinLeaf(EventLeaf(e), e.angle);
    } else if e.kind == SpinLeafEvent {
      var _ := game.SpinLeafDefault(EventLeaf(e));
    } else if e.kind == SwapSideEvent {
      game.SwapSide();
    }
  }

  /** Recorder. */
  class Recorder {
    var events: seq<Event>
    /** m_current, as an index into the events. */
    var current: nat
    /** m_start_game's text. */
    var start: string
    var recording: bool

    function State(): RecorderState
      reads this
    {
      RecorderState(events, current, start, recording)
    }

    predicate Valid()
      reads this
    {
      current <= |events|
    }

    /** Recorder() = default: no events, the cursor at their end, not recording. */
    constructor()
      ensures Valid() && State() == RecorderState([], 0, "", false)
    {
      events, current, start, recording := [], 0, "", false;
    }

    /** The copy constructor copies events, cursor and start text; the copy is not recording. */
    constructor Copy(other: Recorder)
      requires other.Valid()
      ensures Valid() && State() == other.State().(recording := false)
    {
      events, current, start, recording := other.events, other.current, other.start, false;
    }

    /** rotate_marbles(leaf, angle) appends a ROTATE_MARBLES event. */
    method RotateMarbles(leaf: Leaf, angle: real)
      requires Valid()
      modifies this
      ensures Valid() && State() == old(State()).(events := old(events) + [NewEvent(RotateMarblesEvent, angle, leaf)])
    {
      events := events + [NewEvent(RotateMarblesEvent, angle, leaf)];
    }

    /** rotate_internal_disk(angle) appends a ROTATE_INTERNAL_DISK event with leaf INVALID. */
    method RotateInternalDisk(angle: real)
      requires Valid()
      modifies this
      ensures Valid() && State() == old(State()).(events := old(events) + [NewEvent(RotateInternalDiskEvent, angle, InvalidLeaf)])
    {
      events := events + [NewEvent(RotateInternalDiskEvent, angle, InvalidLeaf)];
    }

    /** spin_leaf(leaf, angle) appends a SPIN_LEAF event (not SPIN_LEAF_ANGLE). */
    method SpinLeafAngle(leaf: Leaf, angle: real)
      requires Valid()
      modifies this
      ensures Valid() && State() == old(State()).(events := old(events) + [NewEvent(SpinLeafEvent, angle, leaf)])
    {
      events := events + [NewEvent(SpinLeafEvent, angle, leaf)];
    }

    /** spin_leaf(leaf) is spin_leaf(leaf, 180). */
    method SpinLeaf(leaf: Leaf)
      requires Valid()
      modifies this
      ensures Valid() && State() == old(State()).(events := old(events) + [NewEvent(SpinLeafEvent, 180.0, leaf)])
    {
      SpinLeafAngle(leaf, 180.0);
    }

    /** swap_side appends a SWAP_SIDE event with angle 0 and leaf INVALID. */
    method SwapSide()
      requires Valid()
      modifies this
      ensures Valid() && State() == old(State()).(events := old(events) + [NewEvent(SwapSideEvent, 0.0, InvalidLeaf)])
    {
      events := events + [NewEvent(SwapSideEvent, 0.0, InvalidLeaf)];
    }

    /** reset clears the events. */
    method Reset()
      requires Valid()
      modifies this
      ensures Valid() && State() == old(State()).(events := [], current := 0)
    {
      events, current := [], 0;
    }

    /** rec: the game's text (written by the game itself) is appended to the start text, and recording starts. */
    method Rec(gameText: string)
      modifies this
      ensures State() == old(State()).(start := old(start) + gameText, recording := true)
    {
      start := start + gameText;
      recording := true;
    }

    /** stop: nothing happens unless recording; then recording ends. */
    method Stop()
      modifies this
      ensures State() == old(State()).(recording := false)
    {
      if !recording {
        return;
      }
      recording := false;
    }

    function Size(): (n: nat)
      reads this
      ensures n == |State().events|
    {
      |events|
    }

    function Current(): (n: nat)
      reads this
      ensures n == State().current
    {
      current
    }

    predicate IsRecording()
      reads this
    {
      recording
    }

    /** isEnd: the cursor is past the last event. */
    function IsEnd(): (b: bool)
      reads this
      ensures b <==> State().current == |State().events|
    {
      current == |events|
    }

    /**
     * current_time: the time of the event under the cursor (of the last one
     * at the end) minus the first event's time, in size_t arithmetic.
     */
    function CurrentTime(): (t: nat)
      reads this
      requires Valid() && |events| > 0
      ensures t < SizeBound
      ensures var at := if current == |events| then |events| - 1 else current;
        events[0].time <= events[at].time ==> t == events[at].time - events[0].time || events[at].time - events[0].time >= SizeBound
    {
      var at := if IsEnd() then |events| - 1 else current;
      (events[at].time - events[0].time) % SizeBound
    }

    /**
     * The private play(begin, end): the cursor walks from where it is,
     * applying each event, until it reaches stop or the end of the events.
     */
    method PlayTo(game: SpinPuzzleGame, stop: nat)
      requires Valid() && game.Valid() && AllPlayable(events) && current <= stop
      modifies this, game, game.spin, game.front.marbles, game.front.status, game.back.marbles, game.back.status
      ensures Valid() && game.Valid() && State() == old(State()).(current := State().current)
      ensures current == if stop < |events| then stop else |events|
      ensures game.State() == ApplyAll(old(game.State()), events[old(current)..current])
    {
      ghost var g0 := game.State();
      ghost var c0 := current;
      while current != stop && current != |events|
        invariant c0 <= current <= |events| && current <= stop
        invariant AllPlayable(events) && AllPlayable(events[c0..current])
        invariant game.Valid() && game.State() == ApplyAll(g0, events[c0..current])
        invariant State() == old(State()).(current := current)
        decreases |events| - current
      {
        Dispatch(game, events[current]);
        ApplyAllStep(g0, events, c0, current);
        current := current + 1;
      }
    }

    /** step_forward: the next steps events are played (fewer at the end); true while events are left. */
    method StepForward(game: SpinPuzzleGame, steps: nat) returns (more: bool)
      requires Valid() && game.Valid() && AllPlayable(events)
      modifies this, game, game.spin, game.front.marbles, game.front.status, game.back.marbles, game.back.status
      ensures Valid() && game.Valid() && State() == old(State()).(current := State().current)
      ensures current == if old(current) + steps < |events| then old(current) + steps else |events|
      ensures game.State() == ApplyAll(old(game.State()), events[old(current)..current])
      ensures more <==> current != |events|
    {
      PlayTo(game, current + steps);
      more := current != |events|;
    }

    /** rewind: the cursor goes back to the first event. */
    method Rewind()
      modifies this
      ensures State() == old(State()).(current := 0)
    {
      current := 0;
    }

    /**
     * replay: every event is played from the first.  The source first reloads
     * the start position through the game's own load; here the game is
     * played from the position it is given.
     */
    method Replay(game: SpinPuzzleGame)
      requires Valid() && game.Valid() && AllPlayable(events)
      modifies this, game, game.spin, game.front.marbles, game.front.status, game.back.marbles, game.back.status
      ensures Valid() && game.Valid() && State() == old(State()).(current := |events|)
      ensures game.State() == ApplyAll(old(game.State()), events)
    {
      current := 0;
      PlayTo(game, |events|);
      assert events[0..|events|] == events;
    }

    /** serialize appends the recorder's text to the stream's. */
    method Serialize(out: string, times: bool, fmt: real -> string) returns (text: string)
      ensures text == out + RecorderText(State(), times, fmt)
    {
      text := out + (start + (NatToString(|events|) + "\n"));
      text := WriteEvents(text, events, times, fmt);
    }

    /**
     * load: the first line is written into the start text after what it
     * already holds (clear() on the stringstream resets its state flags, not
     * its contents); then the count and the events.  The cursor is put at the
     * first event (the source leaves it pointing into the discarded list).
     */
    method Load(text: string, parse: string -> Option<real>)
      modifies this
      ensures Valid() && current == 0 && recording == old(recording)
      ensures start == old(start) + RecorderLoad(text, parse).0 + "\n"
      ensures RecorderLoad(text, parse).1.Some? ==> events == RecorderLoad(text, parse).1.value
    {
      var game, st := ReadInto(Open(text), "").0, ReadInto(Open(text), "").1;
      start := start + game + "\n";
      LoadEventList(st, parse);
    }

    /** load as evidently intended: the start text is replaced by the line read. */
    method LoadReplacing(text: string, parse: string -> Option<real>)
      modifies this
      ensures Valid() && current == 0 && recording == old(recording)
      ensures start == RecorderLoad(text, parse).0 + "\n"
      ensures RecorderLoad(text, parse).1.Some? ==> events == RecorderLoad(text, parse).1.value
    {
      var game, st := ReadInto(Open(text), "").0, ReadInto(Open(text), "").1;
      start := game + "\n";
      LoadEventList(st, parse);
    }

    /** The part of load after the first line: the count, then the events. */
    method LoadEventList(st: Stream, parse: string -> Option<real>)
      modifies this
      ensures Valid() && current == 0 && recording == old(recording) && start == old(start)
      ensures var size := ReadSize(st);
        size.Some? && LoadEvents(size.value.1, size.value.0, [], EventReader(parse)).Some? ==>
          events == LoadEvents(size.value.1, size.value.0, [], EventReader(parse)).value.0
    {
      current := 0;
      events := [];
      var size := ReadSize(st);
      if size.None? {
        return;
      }
      events := LoadEventsInto(size.value.1, size.value.0, EventReader(parse));
    }
  }

  /** The event loop of Recorder::load: n extractions, stopping at the first that fails. */
  method LoadEventsInto(st0: Stream, n: nat, load: Stream -> Option<(Event, Stream)>) returns (events: seq<Event>)
    ensures LoadEvents(st0, n, [], load).Some? ==> events == LoadEvents(st0, n, [], load).value.0
  {
    events := [];
    var st := st0;
    var k := 0;
    while k < n
      invariant k <= n && LoadEvents(st0, n, [], load) == LoadEvents(st, n - k, events, load)
    {
      var e := load(st);
      if e.None? {
        return;
      }
      events := events + [e.value.0];
      st := e.value.1;
      k := k + 1;
    }
  }

  /** The loop of Recorder::serialize: each event's line is appended in turn. */
  method WriteEvents(text: string, es: seq<Event>, times: bool, fmt: real -> string) returns (out: string)
    ensures out == text + EventsText(es, times, fmt)
  {
    out := text;
    var i := 0;
    while i < |es|
      invariant i <= |es| && out == text + EventsText(es[..i], times, fmt)
    {
      JoinedSnoc(es[..i], es[i], EventWriter(times, fmt));
      assert es[..i + 1] == es[..i] + [es[i]];
      out := out + EventText(es[i], times, fmt);
      i := i + 1;
    }
    assert es[..i] == es;
  }
}
