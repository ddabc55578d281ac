/**
 * A high-score entry (src/puzzle/spin_puzzle_record.h and .cpp): player name,
 * time, difficulty level and a copy of the game, written as a "record" line
 * followed by one line per field and then the game's own text.
 */
module PuzzleRecord {
  import opened Wrappers
  import opened Text
  import opened GameSpec
  import opened PuzzleGame

  /** The line that opens a record. */
  const Marker: string := "record"

  /** The fields of a SpinPuzzleRecord; the game is held by value. */
  datatype RecordState = RecordState(username: string, time: int, level: int, game: GameState)

  /** The member initialisers: no name, time 0, level -1 and a default game. */
  function DefaultRecord(): (r: RecordState)
    ensures r.username == "" && r.time == 0 && r.level == -1 && r.game == DefaultGame()
  {
    RecordState("", 0, -1, DefaultGame())
  }

  /**
   * What serialize writes: the marker, then name, time and level each on a
   * line of its own, then the game's text (produced by the game itself, and
   * given here as gameText).
   */
  function RecordText(r: RecordState, gameText: string): (text: string)
    ensures |text| > |Marker|
  {
    Marker + "\n" + r.username + "\n" + IntToString(r.time) + "\n" + IntToString(r.level) + "\n" + gameText
  }

  /** Lines, each followed by its '\n'. */
  function Lines(ls: seq<string>): string {
    if ls == [] then "" else ls[0] + "\n" + Lines(ls[1..])
  }

  /**
   * The search loop of load: lines are read and dropped until one equals
   * "record" (which is consumed too) or the stream reaches its end.
   */
  function SkipToMarker(st: Stream): (r: Stream)
    decreases if st.eof then 0 else |st.rest| + 1
  {
    if st.eof then st
    else
      var (line, next) := Getline(st);
      if line == Some(Marker) then next else SkipToMarker(next)
  }

  /**
   * The reads after the search: the name line into username (kept if the
   * stream has ended), then time and level, parsed with atoi from fresh
   * buffers.  These reads leave the game alone; the rest of the stream is
   * what the game's load reads next.
   */
  function ReadFields(r: RecordState, st: Stream): (out: (RecordState, Stream))
    ensures out.0.game == r.game
  {
    var (name, s1) := ReadInto(st, r.username);
    var (time, s2) := ReadInto(s1, "");
    var (level, s3) := ReadInto(s2, "");
    (r.(username := name, time := Atoi(time), level := Atoi(level)), s3)
  }

  /**
   * load: search for the marker, read the fields, then m_game.load(in).  The
   * game's own load is not part of this model and is the parameter gameLoad:
   * given the old game and the stream after the fields, it yields the new
   * game.  The stream handed to it is returned too.
   */
  function LoadSpec(r: RecordState, text: string, gameLoad: (GameState, Stream) -> GameState): (out: (RecordState, Stream))
    ensures out.0.game == gameLoad(r.game, out.1)
    ensures out.1 == ReadFields(r, SkipToMarker(Open(text))).1
  {
    var (fields, rest) := ReadFields(r, SkipToMarker(Open(text)));
    (fields.(game := gameLoad(r.game, rest)), rest)
  }

  /** Lines that are not the marker are skipped. */
  lemma {:induction false} SkipLines(ls: seq<string>, tail: string)
    requires forall i :: 0 <= i < |ls| ==> '\n' !in ls[i] && ls[i] != Marker
    ensures SkipToMarker(Open(Lines(ls) + tail)) == SkipToMarker(Open(tail))
    decreases |ls|
  {
    if ls != [] {
      assert Lines(ls) + tail == ls[0] + "\n" + (Lines(ls[1..]) + tail);
      GetlineLine(ls[0], Lines(ls[1..]) + tail);
      SkipLines(ls[1..], tail);
    } else {
      assert Lines(ls) + tail == tail;
    }
  }

  /**
   * serialize then load: after any lines that are not the marker, a record
   * whose name holds no line break is read back with the same name, time
   * and level, and the game's load starts at the game's text.
   */
  lemma SerializeLoad(r: RecordState, d: RecordState, ls: seq<string>, gameText: string, gameLoad: (GameState, Stream) -> GameState)
    requires '\n' !in r.username
    requires forall i :: 0 <= i < |ls| ==> '\n' !in ls[i] && ls[i] != Marker
    ensures LoadSpec(d, Lines(ls) + RecordText(r, gameText), gameLoad)
      == (RecordState(r.username, r.time, r.level, gameLoad(d.game, Open(gameText))), Open(gameText))
  {
    SkipLines(ls, RecordText(r, gameText));
    var t1 := r.username + "\n" + (IntToString(r.time) + "\n" + (IntToString(r.level) + "\n" + gameText));
    TextAfterMarker(r, gameText);
    SkipMarker(t1);
    FieldsBack(r, d, gameText);
  }

  lemma TextAfterMarker(r: RecordState, gameText: string)
    ensures RecordText(r, gameText)
      == Marker + "\n" + (r.username + "\n" + (IntToString(r.time) + "\n" + (IntToString(r.level) + "\n" + gameText)))
  {
  }

  /** The marker line ends the search, and reading goes on just after it. */
  lemma SkipMarker(tail: string)
    ensures SkipToMarker(Open(Marker + "\n" + tail)) == Open(tail)
  {
    GetlineLine(Marker, tail);
  }

  /** The three field lines are read back, leaving the game's text. */
  lemma FieldsBack(r: RecordState, d: RecordState, gameText: string)
    requires '\n' !in r.username
    ensures ReadFields(d, Open(r.username + "\n" + (IntToString(r.time) + "\n" + (IntToString(r.level) + "\n" + gameText))))
      == (d.(username := r.username, time := r.time, level := r.level), Open(gameText))
  {
    var t3 := IntToString(r.level) + "\n" + gameText;
    var t2 := IntToString(r.time) + "\n" + t3;
    GetlineLine(r.username, t2);
    GetlineLine(IntToString(r.time), t3);
    GetlineLine(IntToString(r.level), gameText);
    AtoiIntToString(r.time);
    AtoiIntToString(r.level);
  }

  /**
   * serialize then load restores the whole record when the game's load reads
   * back, from the game's text, the game that was saved: the test of a
   * shuffled game's record.
   */
  lemma RecordRoundTrip(r: RecordState, d: RecordState, ls: seq<string>, gameText: string, gameLoad: (GameState, Stream) -> GameState)
    requires '\n' !in r.username
    requires forall i :: 0 <= i < |ls| ==> '\n' !in ls[i] && ls[i] != Marker
    requires gameLoad(d.game, Open(gameText)) == r.game
    ensures LoadSpec(d, Lines(ls) + RecordText(r, gameText), gameLoad).0 == r
  {
    SerializeLoad(r, d, ls, gameText, gameLoad);
  }

  /**
   * Without a marker line, load keeps the name, reads time and level as 0
   * and hands the game's load a stream at its end.
   */
  lemma NoMarker(d: RecordState, ls: seq<string>, gameLoad: (GameState, Stream) -> GameState)
    requires forall i :: 0 <= i < |ls| ==> '\n' !in ls[i] && ls[i] != Marker
    ensures LoadSpec(d, Lines(ls), gameLoad) == (d.(time := 0, level := 0, game := gameLoad(d.game, Stream([], true))), Stream([], true))
  {
    SkipLines(ls, "");
    assert Lines(ls) + "" == Lines(ls);
    EmptyLoad(d, gameLoad);
  }

  /** Loading from an empty text: every read fails at the end of the stream. */
  lemma EmptyLoad(d: RecordState, gameLoad: (GameState, Stream) -> GameState)
    ensures LoadSpec(d, "", gameLoad) == (d.(time := 0, level := 0, game := gameLoad(d.game, Stream([], true))), Stream([], true))
  {
    assert Getline(Open("")) == (Some(""), Stream([], true));
    assert SkipToMarker(Open("")) == Stream([], true);
    assert Atoi("") == 0;
    var end := Stream([], true);
    assert ReadFields(d, end) == (d.(time := 0, level := 0), end);
  }

  /** The search loop of load: lines are read until one equals the marker or the stream ends. */
  method SkipPastMarker(st0: Stream) returns (st: Stream)
    ensures st == SkipToMarker(st0)
  {
    st := st0;
    while !st.eof
      invariant SkipToMarker(st) == SkipToMarker(st0)
      decreases if st.eof then 0 else |st.rest| + 1
    {
      var buffer;
      buffer, st := Getline(st).0, Getline(st).1;
      if buffer == Some(Marker) {
        return;
      }
    }
  }

  /** SpinPuzzleRecord. */
  class SpinPuzzleRecord {
    var username: string
    var time: int
    var level: int
    /** m_game: the record's own copy of the game. */
    var game: GameState

    function State(): RecordState
      reads this
    {
      RecordState(username, time, level, game)
    }

    /** SpinPuzzleRecord() = default. */
    constructor Default()
      ensures State() == DefaultRecord()
    {
      username, time, level, game := "", 0, -1, DefaultGame();
    }

    /** The constructor stores the four values as given, copying the game. */
    constructor(name: string, time: int, level: int, g: SpinPuzzleGame)
      requires g.Valid()
      ensures State() == RecordState(name, time, level, g.State())
    {
      username, this.time, this.level, game := name, time, level, g.State();
    }

    /** The defaulted copy constructor. */
    constructor Copy(other: SpinPuzzleRecord)
      ensures State() == other.State()
    {
      username, time, level, game := other.username, other.time, other.level, other.game;
    }

    function Username(): (r: string)
      reads this
      ensures r == State().username
    {
      username
    }

    function Time(): (r: int)
      reads this
      ensures r == State().time
    {
      time
    }

    function Level(): (r: int)
      reads this
      ensures r == State().level
    {
      level
    }

    function Game(): (r: GameState)
      reads this
      ensures r == State().game
    {
      game
    }

    /** update_time replaces the time and nothing else. */
    method UpdateTime(time: int)
      modifies this
      ensures State() == old(State()).(time := time)
    {
      this.time := time;
    }

    /** serialize appends the record's text to the stream's and reports success. */
    method Serialize(out: string, gameText: string) returns (text: string, ok: bool)
      ensures text == out + RecordText(State(), gameText) && ok
    {
      var t := Marker + "\n";
      t := t + username + "\n";
      t := t + IntToString(time) + "\n";
      t := t + IntToString(level) + "\n";
      text := out + (t + gameText);
      ok := true;
    }

    /**
     * load.  The game's own load is the parameter gameLoad; the stream it
     * reads from is returned as rest.  The result is always true.
     */
    method Load(text: string, gameLoad: (GameState, Stream) -> GameState) returns (ok: bool, rest: Stream)
      modifies this
      ensures ok && State() == LoadSpec(old(State()), text, gameLoad).0 && rest == LoadSpec(old(State()), text, gameLoad).1
    {
      ghost var r0 := State();
      var st := SkipPastMarker(Open(text));
      ghost var out := ReadFields(r0, st);
      var bufferTime, bufferLevel;
      username, st := ReadInto(st, username).0, ReadInto(st, username).1;
      bufferTime, st := ReadInto(st, "").0, ReadInto(st, "").1;
      bufferLevel, st := ReadInto(st, "").0, ReadInto(st, "").1;
      time := Atoi(bufferTime);
      level := Atoi(bufferLevel);
      game := gameLoad(game, st);
      assert username == out.0.username && time == out.0.time && level == out.0.level && st == out.1;
      assert State() == out.0.(game := gameLoad(r0.game, out.1));
      return true, st;
    }
  }
}
