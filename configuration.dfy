/**
 * The player's settings (src/puzzle/spin_configuration.h and .cpp): a
 * header line, a format version and four values, written one per line by
 * dump and read back by load.
 */
module PuzzleConfiguration {
  import opened Wrappers
  import opened Text

  /** config_header. */
  const Header: string := "configuration QSpinPUzzle"
  /** The format version this code writes and accepts. */
  const FormatVersion: int := 1

  predicate IsHeader(line: string) {
    line == Header
  }

  /** The fields of a Configuration. */
  datatype ConfigState = ConfigState(name: string, level: int, speed: real, realism: int, version: int)

  /** The member initialisers: "QSpinPuzzle", level 5, speed 11.0, realism 5, version 1. */
  function DefaultConfig(): (c: ConfigState)
    ensures c.version == FormatVersion
  {
    ConfigState("QSpinPuzzle", 5, 11.0, 5, 1)
  }

  /**
   * The text dump appends.  How a double is written (operator<< with the
   * stream's default precision) is the parameter fmt.
   */
  function DumpText(c: ConfigState, fmt: real -> string): (text: string)
    ensures |text| > |Header|
  {
    Header + "\n" + IntToString(c.version) + "\n" + c.name + "\n" + IntToString(c.level) + "\n"
      + fmt(c.speed) + "\n" + IntToString(c.realism) + "\n"
  }

  /**
   * load.  A first line other than the header changes nothing; a version
   * other than 1 is stored and then rejected; otherwise name, level, speed
   * and realism are read in order.  Each read goes into the same buffer:
   * after a final newline the first missing line empties it, and the last
   * line read is kept only when the text has no final newline.  How atof
   * parses the speed is the parameter atof.
   */
  function LoadSpec(c: ConfigState, text: string, atof: string -> real): (r: (bool, ConfigState))
    ensures !r.0 ==> r.1 == c.(version := r.1.version)
    ensures r.0 ==> r.1.version == FormatVersion
  {
    var (header, s1) := ReadInto(Open(text), "");
    if !IsHeader(header) then (false, c) else ReadVersion(c, s1, header, atof)
  }

  /** The part of load after the header: the version line, then the fields if it reads 1. */
  function ReadVersion(c: ConfigState, st: Stream, buffer: string, atof: string -> real): (r: (bool, ConfigState))
    ensures !r.0 ==> r.1 == c.(version := r.1.version)
    ensures r.0 ==> r.1.version == FormatVersion
  {
    var (buffer, s2) := ReadInto(st, buffer);
    var version := Atoi(buffer);
    if version != FormatVersion then (false, c.(version := version))
    else (true, ReadFields(c.(version := version), s2, buffer, atof))
  }

  /** The second part of load: name, level, speed and realism, each read into the buffer in turn. */
  function ReadFields(c: ConfigState, st: Stream, buffer: string, atof: string -> real): (r: ConfigState)
    ensures r.version == c.version
  {
    var (name, s3) := ReadInto(st, c.name);
    var (b4, s4) := ReadInto(s3, buffer);
    var (b5, s5) := ReadInto(s4, b4);
    var (b6, s6) := ReadInto(s5, b5);
    ConfigState(name, Atoi(b4), atof(b5), Atoi(b6), c.version)
  }

  /** A configuration's dump, as load reads it lines by line. */
  lemma DumpLines(c: ConfigState, fmt: real -> string)
    requires '\n' !in c.name && '\n' !in fmt(c.speed)
    ensures DumpText(c, fmt) == Header + "\n" + (IntToString(c.version) + "\n" + (c.name + "\n" + (IntToString(c.level) + "\n"
      + (fmt(c.speed) + "\n" + (IntToString(c.realism) + "\n" + "")))))
  {
  }

  /**
   * dump then load: a configuration of version 1 comes back with the same
   * name, level and realism, and with the speed atof reads from its text;
   * one of any other version is refused, with only the version taken over.
   */
  lemma DumpLoad(c: ConfigState, d: ConfigState, fmt: real -> string, atof: string -> real)
    requires '\n' !in c.name && '\n' !in fmt(c.speed)
    ensures LoadSpec(d, DumpText(c, fmt), atof) ==
      if c.version == FormatVersion then (true, c.(speed := atof(fmt(c.speed))))
      else (false, d.(version := c.version))
  {
    DumpLines(c, fmt);
    var t5 := IntToString(c.realism) + "\n" + "";
    var t4 := fmt(c.speed) + "\n" + t5;
    var t3 := IntToString(c.level) + "\n" + t4;
    var t2 := c.name + "\n" + t3;
    var t1 := IntToString(c.version) + "\n" + t2;
    GetlineLine(Header, t1);
    GetlineLine(IntToString(c.version), t2);
    AtoiIntToString(c.version);
    GetlineLine(c.name, t3);
    GetlineLine(IntToString(c.level), t4);
    AtoiIntToString(c.level);
    GetlineLine(fmt(c.speed), t5);
    GetlineLine(IntToString(c.realism), "");
    AtoiIntToString(c.realism);
  }

  /** A text whose first line is not the header is refused and changes nothing. */
  lemma WrongHeader(c: ConfigState, first: string, tail: string, atof: string -> real)
    requires '\n' !in first && first != Header
    ensures LoadSpec(c, first + "\n" + tail, atof) == (false, c)
  {
    GetlineLine(first, tail);
  }

  /** A header followed by any version line other than 1 is refused after the version is overwritten. */
  lemma WrongVersion(c: ConfigState, v: string, tail: string, atof: string -> real)
    requires '\n' !in v && Atoi(v) != FormatVersion
    ensures LoadSpec(c, Header + "\n" + v + "\n" + tail, atof) == (false, c.(version := Atoi(v)))
  {
    assert Header + "\n" + v + "\n" + tail == Header + "\n" + (v + "\n" + tail);
    GetlineLine(Header, v + "\n" + tail);
    GetlineLine(v, tail);
  }

  /** Configuration. */
  class Configuration {
    var name: string
    var level: int
    var speed: real
    var realism: int
    var version: int

    function State(): ConfigState
      reads this
    {
      ConfigState(name, level, speed, realism, version)
    }

    /** Configuration() = default: the member initialisers. */
    constructor()
      ensures State() == DefaultConfig()
    {
      name := "QSpinPuzzle";
      level := 5;
      speed := 11.0;
      realism := 5;
      version := 1;
    }

    /** The defaulted copy constructor: every field is copied. */
    constructor Copy(other: Configuration)
      ensures State() == other.State()
    {
      name := other.name;
      level := other.level;
      speed := other.speed;
      realism := other.realism;
      version := other.version;
    }

    method SetName(name: string)
      modifies this
      ensures State() == old(State()).(name := name)
    {
      this.name := name;
    }

    method SetLevel(level: int)
      modifies this
      ensures State() == old(State()).(level := level)
    {
      this.level := level;
    }

    method SetSpeed(speed: real)
      modifies this
      ensures State() == old(State()).(speed := speed)
    {
      this.speed := speed;
    }

    method SetRealism(realism: int)
      modifies this
      ensures State() == old(State()).(realism := realism)
    {
      this.realism := realism;
    }

    function Name(): (r: string)
      reads this
      ensures r == State().name
    {
      name
    }

    function Level(): (r: int)
      reads this
      ensures r == State().level
    {
      level
    }

    function Speed(): (r: real)
      reads this
      ensures r == State().speed
    {
      speed
    }

    function Realism(): (r: int)
      reads this
      ensures r == State().realism
    {
      realism
    }

    /** dump: the six lines are appended to the stream's text. */
    method Dump(s: string, fmt: real -> string) returns (out: string)
      ensures out == s + DumpText(State(), fmt)
    {
      var text := Header + "\n";
      text := text + IntToString(version) + "\n";
      text := text + name + "\n";
      text := text + IntToString(level) + "\n";
      text := text + fmt(speed) + "\n";
      text := text + IntToString(realism) + "\n";
      out := s + text;
    }

    /** load, reading the text line by line into one buffer. */
    method Load(text: string, atof: string -> real) returns (ok: bool)
      modifies this
      ensures (ok, State()) == LoadSpec(old(State()), text, atof)
    {
      var buffer, st := ReadInto(Open(text), "").0, ReadInto(Open(text), "").1;
      if !IsHeader(buffer) {
        return false;
      }
      ok := ReadVersionInto(st, buffer, atof);
    }

    /** The version check of load. */
    method ReadVersionInto(st: Stream, buffer: string, atof: string -> real) returns (ok: bool)
      modifies this
      ensures (ok, State()) == ReadVersion(old(State()), st, buffer, atof)
    {
      var buffer, st := ReadInto(st, buffer).0, ReadInto(st, buffer).1;
      version := Atoi(buffer);
      if version != FormatVersion {
        return false;
      }
      ReadFieldsInto(st, buffer, atof);
      return true;
    }

    /** The field-reading part of load. */
    method ReadFieldsInto(st: Stream, buffer: string, atof: string -> real)
      modifies this
      ensures State() == ReadFields(old(State()), st, buffer, atof)
    {
      var st, buffer := st, buffer;
      name, st := ReadInto(st, name).0, ReadInto(st, name).1;
      buffer, st := ReadInto(st, buffer).0, ReadInto(st, buffer).1;
      level := Atoi(buffer);
      buffer, st := ReadInto(st, buffer).0, ReadInto(st, buffer).1;
      speed := atof(buffer);
      buffer, st := ReadInto(st, buffer).0, ReadInto(st, buffer).1;
      realism := Atoi(buffer);
    }
  }
}
