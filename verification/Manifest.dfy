/** The shard manifest of src/shard.cpp: its printer `save`, its parser `load`, and their round trip. */
module Manifest {
  import opened Common
  import opened Shards

  // ----- numbers -----

  predicate IsDigit(c: char) { '0' <= c <= '9' }

  predicate AllDigits(text: string) { forall i :: 0 <= i < |text| ==> IsDigit(text[i]) }

  /** The number a string of digits denotes. */
  function Value(text: string): nat
    requires AllDigits(text)
  {
    if text == "" then 0
    else 10 * Value(text[..|text| - 1]) + (text[|text| - 1] as int - '0' as int)
  }

  /** How many leading characters `std::from_chars` consumes. */
  function DigitPrefix(text: string): (n: nat)
    ensures n <= |text| && AllDigits(text[..n])
    ensures n < |text| ==> !IsDigit(text[n])
  {
    if text == "" || !IsDigit(text[0]) then 0
    else
      var n := DigitPrefix(text[1..]);
      assert forall i :: 0 < i < n + 1 ==> text[i] == text[1..][..n][i - 1];
      n + 1
  }

  /** `parse_u64`: `from_chars` must match something, fit 64 bits, and stop at the end. */
  function ParseU64(text: string): Option<u64> {
    if text == "" then None
    else
      var ptr := DigitPrefix(text);
      if ptr == 0 || Value(text[..ptr]) >= TWO64 || ptr != |text| then None else Some(Value(text[..ptr]))
  }

  lemma {:induction false} ParseU64Exact(text: string, v: u64)
    ensures ParseU64(text) == Some(v) <==> text != "" && AllDigits(text) && Value(text) == v
  {
    var ptr := DigitPrefix(text);
    if ptr == |text| {
      assert text[..ptr] == text;
    }
  }

  /** `operator<<` of a number. */
  function Decimal(n: nat): (text: string)
    ensures text != ""
  {
    var digit := ('0' as int + n % 10) as char;
    if n < 10 then [digit] else Decimal(n / 10) + [digit]
  }

  /** Printing and parsing numbers are inverse. */
  lemma {:induction false} DecimalValue(n: nat)
    ensures AllDigits(Decimal(n)) && Value(Decimal(n)) == n
  {
    var text := Decimal(n);
    if n < 10 {
      assert text[..0] == "";
    } else {
      DecimalValue(n / 10);
      assert text[..|text| - 1] == Decimal(n / 10);
    }
  }

  /** Numbers are printed in base ten without leading zeros. */
  lemma {:induction false} DecimalCanonical(n: nat)
    ensures n > 0 ==> Decimal(n)[0] != '0'
  {
    if n >= 10 {
      DecimalCanonical(n / 10);
    }
  }

  lemma {:induction false} BaseTen()
    ensures Decimal(0) == "0" && Decimal(409) == "409" && Value("409") == 409
  {
    assert Decimal(4) == "4" && Decimal(40) == "40";
    DecimalValue(409);
  }

  lemma {:induction false} PrintThenParse(n: u64)
    ensures ParseU64(Decimal(n)) == Some(n)
  {
    DecimalValue(n);
    ParseU64Exact(Decimal(n), n);
  }

  // ----- lines -----

  /** `find`: the first `c` at or after `from`. */
  function Find(text: string, c: char, from: nat): (r: Option<nat>)
    ensures r.Some? ==> from <= r.value < |text| && text[r.value] == c
    ensures r.Some? ==> forall i :: from <= i < r.value ==> text[i] != c
    ensures r.None? ==> forall i :: from <= i < |text| ==> text[i] != c
    decreases |text| - from
  {
    if from >= |text| then None
    else if text[from] == c then Some(from)
    else Find(text, c, from + 1)
  }

  datatype Fields = Fields(path: string, offset: string, length: string)

  /** `split_line`. */
  function SplitLine(line: string): Option<Fields> {
    var first := Find(line, '\t', 0);
    if first.None? then None
    else
      var second := Find(line, '\t', first.value + 1);
      if second.None? || Find(line, '\t', second.value + 1).Some? then None
      else Some(Fields(line[..first.value], line[first.value + 1..second.value], line[second.value + 1..]))
  }

  function Joined(f: Fields): string { f.path + "\t" + f.offset + "\t" + f.length }

  predicate TabFree(f: Fields) { '\t' !in f.path && '\t' !in f.offset && '\t' !in f.length }

  lemma {:induction false} FindIs(text: string, c: char, from: nat, k: nat)
    requires from <= k < |text| && text[k] == c
    requires forall i :: from <= i < k ==> text[i] != c
    ensures Find(text, c, from) == Some(k)
  {
  }

  lemma {:induction false} FindNone(text: string, c: char, from: nat)
    requires forall i :: from <= i < |text| ==> text[i] != c
    ensures Find(text, c, from) == None
  {
  }

  lemma {:induction false} SplitJoins(line: string, f: Fields)
    requires SplitLine(line) == Some(f)
    ensures line == Joined(f) && TabFree(f)
  {
    hide Find;
    var first := Find(line, '\t', 0).value;
    var second := Find(line, '\t', first + 1).value;
    assert line == line[..first] + "\t" + line[first + 1..second] + "\t" + line[second + 1..];
  }

  lemma {:induction false} JoinedAt(g: Fields, i: nat)
    requires i < |Joined(g)|
    ensures var a, b := |g.path|, |g.path| + 1 + |g.offset|;
            Joined(g)[i] ==
            if i < a then g.path[i] else if i == a || i == b then '\t'
            else if i < b then g.offset[i - a - 1] else g.length[i - b - 1]
  {
  }

  lemma {:induction false} JoinedParts(f: Fields)
    ensures var line, a, b := Joined(f), |f.path|, |f.path| + 1 + |f.offset|;
            && |line| == b + 1 + |f.length|
            && line[..a] == f.path && line[a] == '\t' && line[a + 1..b] == f.offset
            && line[b] == '\t' && line[b + 1..] == f.length
  {
    assert Joined(f) == f.path + ("\t" + (f.offset + ("\t" + f.length)));
  }

  lemma {:induction false} TabsOfJoined(g: Fields, i: nat)
    requires TabFree(g) && i < |Joined(g)| && Joined(g)[i] == '\t'
    ensures i == |g.path| || i == |g.path| + 1 + |g.offset|
  {
    hide Joined;
    JoinedAt(g, i);
    JoinedParts(g);
  }

  lemma {:induction false} JoinSplits(f: Fields)
    requires TabFree(f)
    ensures SplitLine(Joined(f)) == Some(f)
  {
    hide Find, Joined, TabFree;
    var line, a := Joined(f), |f.path|;
    var b := a + 1 + |f.offset|;
    JoinedParts(f);
    forall i | 0 <= i < |line| && i != a && i != b ensures line[i] != '\t' {
      if line[i] == '\t' { TabsOfJoined(f, i); }
    }
    FindIs(line, '\t', 0, a);
    FindIs(line, '\t', a + 1, b);
    FindNone(line, '\t', b + 1);
  }

  /** A line splits exactly when it is three tab-free fields joined by tabs, and into those. */
  lemma {:induction false} SplitLineExact(line: string, f: Fields)
    ensures SplitLine(line) == Some(f) <==> line == Joined(f) && TabFree(f)
  {
    hide SplitLine, Joined, TabFree;
    if SplitLine(line) == Some(f) {
      SplitJoins(line, f);
    } else if line == Joined(f) && TabFree(f) {
      JoinSplits(f);
    }
  }

  /** The lines `std::getline` yields. */
  function Lines(text: string): seq<string>
    decreases |text|
  {
    if text == "" then []
    else
      var end := Find(text, '\n', 0);
      if end.None? then [text] else [text[..end.value]] + Lines(text[end.value + 1..])
  }

  lemma {:induction false} FirstLine(line: string, rest: string)
    requires '\n' !in line
    ensures Lines(line + "\n" + rest) == [line] + Lines(rest)
  {
    var text := line + "\n" + rest;
    var k := |line|;
    assert text[k] == '\n';
    assert forall i :: 0 <= i < k ==> text[i] == line[i];
    assert Find(text, '\n', 0) == Some(k);
    assert text[..k] == line && text[k + 1..] == rest;
  }

  function Terminated(lines: seq<string>): string {
    if lines == [] then "" else lines[0] + "\n" + Terminated(lines[1..])
  }

  lemma {:induction false} TerminatedFront(line: string, rest: seq<string>)
    ensures Terminated([line] + rest) == line + "\n" + Terminated(rest)
  {
    assert ([line] + rest)[1..] == rest;
  }

  /** Exactly which lines a text has: they hold no newline, and each of them ended by one they are the
      text, whose last line may lack it. */
  lemma {:induction false} LinesExactly(text: string)
    ensures forall i :: 0 <= i < |Lines(text)| ==> '\n' !in Lines(text)[i]
    ensures Terminated(Lines(text)) == if text == "" || text[|text| - 1] == '\n' then text else text + "\n"
    decreases |text|
  {
    hide Terminated, Lines, Find;
    NoLinesEnded();
    var end := Find(text, '\n', 0);
    if text == "" {
    } else if end.None? {
      OnlyLine(text);
      TerminatedFront(text, []);
      assert [text] + [] == [text];
    } else {
      var line, rest := text[..end.value], text[end.value + 1..];
      assert text == line + "\n" + rest;
      FirstLine(line, rest);
      LinesExactly(rest);
      TerminatedFront(line, Lines(rest));
      assert rest != "" ==> rest[|rest| - 1] == text[|text| - 1];
      assert line + "\n" + (rest + "\n") == text + "\n";
    }
  }

  lemma {:induction false} NoLinesEnded()
    ensures Terminated([]) == "" && Lines("") == []
  {
  }

  /** A last line without its newline is a line all the same. */
  lemma {:induction false} LastLine(text: string)
    requires text != "" && text[|text| - 1] != '\n'
    ensures Lines(text + "\n" + "") == Lines(text)
    ensures '\n' !in text ==> Lines(text) == [text]
    decreases |text|
  {
    hide Lines;
    NoLinesEnded();
    var end := Find(text, '\n', 0);
    if end.None? {
      FirstLine(text, "");
      OnlyLine(text);
    } else {
      var line, rest := text[..end.value], text[end.value + 1..];
      assert rest != "" && rest[|rest| - 1] == text[|text| - 1];
      LastLine(rest);
      assert text == line + "\n" + rest && text + "\n" + "" == line + "\n" + (rest + "\n" + "");
      FirstLine(line, rest);
      FirstLine(line, rest + "\n" + "");
    }
  }

  lemma {:induction false} OnlyLine(text: string)
    requires text != "" && '\n' !in text
    ensures Lines(text) == [text]
  {
    FindNone(text, '\n', 0);
  }

  // ----- loading -----

  datatype LoadError =
    | Malformed(line: nat)
    | EmptyPath(line: nat)
    | NotDecimal(line: nat)
    | ZeroLength(line: nat)
    | Misaligned(line: nat, offset: u64)
    | Overflows(line: nat)
    | CannotOpen
    | ReadBroken

  datatype Loaded = Loaded(shards: seq<Shard>) | Rejected(error: LoadError)

  datatype LineResult = Skip | Entry(shard: Shard) | Bad(error: LoadError)

  function WithoutReturn(line: string): string {
    if line != "" && line[|line| - 1] == '\r' then line[..|line| - 1] else line
  }

  /** Exactly one carriage return is taken off the end of a line, if there is one. */
  lemma {:induction false} ReturnIsStripped(line: string)
    ensures WithoutReturn(line + "\r") == line
    ensures line == "" || line[|line| - 1] != '\r' ==> WithoutReturn(line) == line
  {
  }

  /** One line of the manifest; `resolve` turns a path against the manifest's directory. */
  function ParseLine(text: string, number: nat, alignment: nat, resolve: string -> string): LineResult
    requires alignment > 0
  {
    var line := WithoutReturn(text);
    if line == "" || line[0] == '#' then Skip
    else
      var fields := SplitLine(line);
      if fields.None? then Bad(Malformed(number))
      else if fields.value.path == "" then Bad(EmptyPath(number))
      else
        var offset, length := ParseU64(fields.value.offset), ParseU64(fields.value.length);
        if offset.None? || length.None? then Bad(NotDecimal(number))
        else if length.value == 0 then Bad(ZeroLength(number))
        else if offset.value % alignment != 0 then Bad(LoadError.Misaligned(number, offset.value))
        else if (offset.value + length.value) % TWO64 < offset.value then Bad(Overflows(number))
        else Entry(Shard(resolve(fields.value.path), offset.value, length.value))
  }

  /** The shards of the lines from line `number` on, or the first error. */
  function ParseLines(lines: seq<string>, number: nat, alignment: nat, resolve: string -> string): Loaded
    requires alignment > 0
  {
    if lines == [] then Loaded([])
    else
      match ParseLine(lines[0], number, alignment, resolve)
      case Bad(error) => Rejected(error)
      case Skip => ParseLines(lines[1..], number + 1, alignment, resolve)
      case Entry(shard) =>
        match ParseLines(lines[1..], number + 1, alignment, resolve)
        case Rejected(error) => Rejected(error)
        case Loaded(shards) => Loaded([shard] + shards)
  }

  /** The body of the loop of `load`. */
  method LoadLine(text: string, number: nat, alignment: nat, resolve: string -> string) returns (r: LineResult)
    requires alignment > 0
    ensures r == ParseLine(text, number, alignment, resolve)
  {
    hide SplitLine, ParseU64;
    var line := WithoutReturn(text);
    if line == "" || line[0] == '#' {
      return Skip;
    }
    var fields := SplitLine(line);
    if fields.None? {
      return Bad(Malformed(number));
    }
    if fields.value.path == "" {
      return Bad(EmptyPath(number));
    }
    var offset, length := ParseU64(fields.value.offset), ParseU64(fields.value.length);
    if offset.None? || length.None? {
      return Bad(NotDecimal(number));
    }
    if length.value == 0 {
      return Bad(ZeroLength(number));
    }
    if offset.value % alignment != 0 {
      return Bad(LoadError.Misaligned(number, offset.value));
    }
    if (offset.value + length.value) % TWO64 < offset.value {
      return Bad(Overflows(number));
    }
    return Entry(Shard(resolve(fields.value.path), offset.value, length.value));
  }

  /** The lines read before reading breaks, if it does. */
  function LinesRead(text: string, breaksAfter: Option<nat>): (lines: seq<string>) {
    if breaksAfter.None? then Lines(text) else Lines(text)[..Min(breaksAfter.value, |Lines(text)|)]
  }

  /** `load`: the shards of the lines in order, up to the first line that is wrong. `opens` says whether
      the manifest can be opened, and `breaksAfter` after how many lines reading it breaks. */
  method Load(text: string, alignment: nat, resolve: string -> string, opens: bool, breaksAfter: Option<nat>)
    returns (r: Loaded)
    requires alignment > 0
    ensures !opens ==> r == Rejected(CannotOpen)
    ensures opens ==>
              var parsed := ParseLines(LinesRead(text, breaksAfter), 1, alignment, resolve);
              r == if parsed.Loaded? && breaksAfter.Some? then Rejected(ReadBroken) else parsed
  {
    hide ParseLine, Lines, ParseLines, Prepend;
    if !opens {
      return Rejected(CannotOpen);
    }
    var shards := [];
    var lines, i := LinesRead(text, breaksAfter), 0;
    NoLinesYet(lines, alignment, resolve);
    while i < |lines|
      invariant 0 <= i <= |lines|
      invariant ParseLines(lines, 1, alignment, resolve) ==
                Prepend(shards, ParseLines(lines[i..], i + 1, alignment, resolve))
    {
      NextLine(lines, i, shards, alignment, resolve);
      var entry := LoadLine(lines[i], i + 1, alignment, resolve);
      i := i + 1;
      match entry {
        case Skip =>
        case Bad(error) => return Rejected(error);
        case Entry(shard) => shards := shards + [shard];
      }
    }
    NoMoreLines(lines, shards, alignment, resolve);
    return if breaksAfter.Some? then Rejected(ReadBroken) else Loaded(shards);
  }

  function Prepend(shards: seq<Shard>, rest: Loaded): Loaded {
    match rest
    case Rejected(error) => Rejected(error)
    case Loaded(more) => Loaded(shards + more)
  }

  lemma {:induction false} NoLinesYet(lines: seq<string>, alignment: nat, resolve: string -> string)
    requires alignment > 0
    ensures ParseLines(lines, 1, alignment, resolve) == Prepend([], ParseLines(lines[0..], 1, alignment, resolve))
  {
    hide ParseLines;
    assert lines[0..] == lines;
  }

  lemma {:induction false} NoMoreLines(lines: seq<string>, shards: seq<Shard>, alignment: nat, resolve: string -> string)
    requires alignment > 0
    ensures Prepend(shards, ParseLines(lines[|lines|..], |lines| + 1, alignment, resolve)) == Loaded(shards)
  {
  }

  lemma {:induction false} NextLine(
    lines: seq<string>, i: nat, shards: seq<Shard>, alignment: nat, resolve: string -> string)
    requires alignment > 0 && i < |lines|
    ensures Prepend(shards, ParseLines(lines[i..], i + 1, alignment, resolve)) ==
            match ParseLine(lines[i], i + 1, alignment, resolve)
            case Skip => Prepend(shards, ParseLines(lines[i + 1..], i + 2, alignment, resolve))
            case Bad(error) => Rejected(error)
            case Entry(shard) => Prepend(shards + [shard], ParseLines(lines[i + 1..], i + 2, alignment, resolve))
  {
    hide ParseLine;
    assert lines[i..][0] == lines[i] && lines[i..][1..] == lines[i + 1..];
  }

  /** What `load` promises of every shard. */
  predicate Sound(shard: Shard, alignment: nat)
    requires alignment > 0
  {
    shard.offset % alignment == 0 && shard.length > 0 && shard.offset + shard.length < TWO64
  }

  lemma {:induction false} WrapTest(offset: u64, length: u64)
    ensures (offset + length) % TWO64 < offset <==> offset + length >= TWO64
  {
  }

  /** A string of digits whose value fits 64 bits. */
  predicate IsNumber(text: string) {
    text != "" && AllDigits(text) && Value(text) < TWO64
  }

  /** The three fields are a tab-free path that is no comment and two numbers that make a sound range. */
  predicate Describes(f: Fields, alignment: nat)
    requires alignment > 0
  {
    && TabFree(f) && f.path != "" && f.path[0] != '#'
    && IsNumber(f.offset) && IsNumber(f.length)
    && Value(f.offset) % alignment == 0 && 0 < Value(f.length) && Value(f.offset) + Value(f.length) < TWO64
  }

  lemma {:induction false} NumberParses(text: string)
    ensures ParseU64(text) == if IsNumber(text) then Some(Value(text)) else None
  {
    hide DigitPrefix, Value;
    if IsNumber(text) {
      ParseU64Exact(text, Value(text));
    } else if ParseU64(text).Some? {
      ParseU64Exact(text, ParseU64(text).value);
    }
  }

  /** Exactly which lines give a shard, and which one: those that, without a carriage return, are three
      fields joined by tabs that describe it. Blank lines and comments are skipped, and everything else
      is an error. */
  lemma {:induction false} LineExactly(text: string, number: nat, alignment: nat, resolve: string -> string)
    requires alignment > 0
    ensures forall f :: WithoutReturn(text) == Joined(f) && Describes(f, alignment) ==>
              ParseLine(text, number, alignment, resolve) == Entry(Shard(resolve(f.path), Value(f.offset), Value(f.length)))
    ensures ParseLine(text, number, alignment, resolve).Entry? ==>
              exists f :: WithoutReturn(text) == Joined(f) && Describes(f, alignment)
    ensures ParseLine(text, number, alignment, resolve).Skip? <==>
              WithoutReturn(text) == "" || WithoutReturn(text)[0] == '#'
  {
    hide SplitLine, ParseU64, Value, Joined, TabFree;
    var line := WithoutReturn(text);
    forall f | line == Joined(f) && Describes(f, alignment)
      ensures ParseLine(text, number, alignment, resolve) == Entry(Shard(resolve(f.path), Value(f.offset), Value(f.length)))
    {
      FieldsParse(text, f, number, alignment, resolve);
    }
    if ParseLine(text, number, alignment, resolve).Entry? {
      var f := SplitLine(line).value;
      SplitLineExact(line, f);
      NumberParses(f.offset);
      NumberParses(f.length);
      WrapTest(Value(f.offset), Value(f.length));
      PathFirst(f);
    }
  }

  /** Which error a line gives: that of the first check it fails, with its number. */
  lemma {:induction false} ErrorExactly(text: string, f: Fields, number: nat, alignment: nat, resolve: string -> string)
    requires alignment > 0
    requires WithoutReturn(text) != "" && WithoutReturn(text)[0] != '#'
    ensures (forall g :: WithoutReturn(text) == Joined(g) ==> !TabFree(g)) ==>
              ParseLine(text, number, alignment, resolve) == Bad(Malformed(number))
    ensures WithoutReturn(text) == Joined(f) && TabFree(f) ==>
              var r := ParseLine(text, number, alignment, resolve);
              if f.path == "" then r == Bad(EmptyPath(number))
              else if !IsNumber(f.offset) || !IsNumber(f.length) then r == Bad(NotDecimal(number))
              else if Value(f.length) == 0 then r == Bad(ZeroLength(number))
              else if Value(f.offset) % alignment != 0 then r == Bad(LoadError.Misaligned(number, Value(f.offset)))
              else if Value(f.offset) + Value(f.length) >= TWO64 then r == Bad(Overflows(number))
              else r.Entry?
  {
    hide SplitLine, ParseU64, Value, Joined, TabFree;
    var line := WithoutReturn(text);
    if SplitLine(line).Some? {
      SplitLineExact(line, SplitLine(line).value);
    }
    if line == Joined(f) && TabFree(f) {
      SplitLineExact(line, f);
      NumberParses(f.offset);
      NumberParses(f.length);
      if IsNumber(f.offset) && IsNumber(f.length) {
        WrapTest(Value(f.offset), Value(f.length));
      }
    }
  }

  lemma {:induction false} FieldsParse(text: string, f: Fields, number: nat, alignment: nat, resolve: string -> string)
    requires alignment > 0 && WithoutReturn(text) == Joined(f) && Describes(f, alignment)
    ensures ParseLine(text, number, alignment, resolve) == Entry(Shard(resolve(f.path), Value(f.offset), Value(f.length)))
  {
    hide SplitLine, ParseU64, Value, Joined, TabFree;
    SplitLineExact(Joined(f), f);
    NumberParses(f.offset);
    NumberParses(f.length);
    WrapTest(Value(f.offset), Value(f.length));
    PathFirst(f);
  }

  lemma {:induction false} PathFirst(f: Fields)
    ensures Joined(f) != "" && (f.path != "" ==> Joined(f)[0] == f.path[0])
  {
  }

  /** A line that gives a shard gives a sound one. */
  lemma {:induction false} EntryIsSound(text: string, number: nat, alignment: nat, resolve: string -> string)
    requires alignment > 0 && ParseLine(text, number, alignment, resolve).Entry?
    ensures Sound(ParseLine(text, number, alignment, resolve).shard, alignment)
  {
    hide SplitLine, ParseU64;
    var shard := ParseLine(text, number, alignment, resolve).shard;
    WrapTest(shard.offset, shard.length);
  }

  /** Every list that loads has aligned offsets, positive lengths and ends that do not wrap. */
  lemma {:induction false} LoadedAreSound(lines: seq<string>, number: nat, alignment: nat, resolve: string -> string)
    requires alignment > 0 && ParseLines(lines, number, alignment, resolve).Loaded?
    ensures forall shard :: shard in ParseLines(lines, number, alignment, resolve).shards ==> Sound(shard, alignment)
    decreases |lines|
  {
    hide ParseLine, Sound;
    if lines != [] {
      LoadedAreSound(lines[1..], number + 1, alignment, resolve);
      if ParseLine(lines[0], number, alignment, resolve).Entry? {
        EntryIsSound(lines[0], number, alignment, resolve);
      }
    }
  }

  // ----- saving -----

  const HEADER := "# dsio shard manifest v1"

  predicate Clean(path: string) { '\t' !in path && '\n' !in path }

  function ShardLine(shard: Shard, relative: string -> string): string {
    relative(shard.path) + "\t" + Decimal(shard.offset) + "\t" + Decimal(shard.length)
  }

  function ShardLines(shards: seq<Shard>, relative: string -> string): string {
    if shards == [] then "" else ShardLine(shards[0], relative) + "\n" + ShardLines(shards[1..], relative)
  }

  lemma {:induction false} ShardLinesSnoc(shards: seq<Shard>, last: Shard, relative: string -> string)
    ensures ShardLines(shards + [last], relative) == ShardLines(shards, relative) + (ShardLine(last, relative) + "\n")
  {
    hide ShardLine;
    if shards == [] {
      assert shards + [last] == [last] && [last][1..] == [];
      assert ShardLines([last], relative) == ShardLine(last, relative) + "\n" + "";
    } else {
      ShardLinesSnoc(shards[1..], last, relative);
      assert (shards + [last])[1..] == shards[1..] + [last];
    }
  }

  lemma {:induction false} NoShardLines(relative: string -> string)
    ensures ShardLines([], relative) == ""
  {
  }

  datatype Saved = Saved | BadPath(path: string) | CannotWrite | WriteFailed

  /** `save`: a path with a tab or a newline is an error, and the manifest then stops short of it;
      otherwise every shard is written. `relative` turns a path into one relative to the manifest, `opens`
      says whether that can be opened and `holds` whether it takes what is written; `text` is what is. */
  method Save(shards: seq<Shard>, relative: string -> string, opens: bool, holds: bool)
    returns (r: Saved, text: string)
    ensures HEADER == "# dsio shard manifest v1"
    ensures r.CannotWrite? <==> !opens
    ensures r.Saved? || r.WriteFailed? <==> opens && forall i :: 0 <= i < |shards| ==> Clean(shards[i].path)
    ensures r.Saved? || r.WriteFailed? ==> text == HEADER + "\n" + ShardLines(shards, relative) && r.Saved? == holds
    ensures r.BadPath? ==>
              exists n :: 0 <= n < |shards| && shards[n].path == r.path && !Clean(r.path)
                && (forall k :: 0 <= k < n ==> Clean(shards[k].path))
                && text == HEADER + "\n" + ShardLines(shards[..n], relative)
  {
    hide ShardLine, ShardLines;
    if !opens {
      return CannotWrite, "";
    }
    text := HEADER + "\n";
    assert ShardLines(shards[..0], relative) == "" by { NoShardLines(relative); }
    var i := 0;
    while i < |shards|
      invariant 0 <= i <= |shards|
      invariant forall k :: 0 <= k < i ==> Clean(shards[k].path)
      invariant text == HEADER + "\n" + ShardLines(shards[..i], relative)
    {
      if '\t' in shards[i].path || '\n' in shards[i].path {
        return BadPath(shards[i].path), text;
      }
      ShardLinesSnoc(shards[..i], shards[i], relative);
      assert shards[..i + 1] == shards[..i] + [shards[i]];
      text := text + (ShardLine(shards[i], relative) + "\n");
      i := i + 1;
    }
    assert shards[..i] == shards;
    return if holds then Saved else WriteFailed, text;
  }

  // ----- the round trip -----

  /** A shard whose line reads back as that shard: its written path is not empty, holds no tab and does not
      look like a comment, it resolves to the path, and the range is sound. */
  ghost predicate Writable(shard: Shard, alignment: nat, relative: string -> string, resolve: string -> string)
    requires alignment > 0
  {
    var written := relative(shard.path);
    && written != "" && written[0] != '#' && '\t' !in written && resolve(written) == shard.path
    && Sound(shard, alignment)
  }

  lemma {:induction false} DigitsAreClean(text: string)
    requires AllDigits(text)
    ensures '\t' !in text && '\n' !in text && '\r' !in text
  {
  }

  lemma {:induction false} ShardLineHasNoNewline(shard: Shard, relative: string -> string)
    requires '\n' !in relative(shard.path)
    ensures '\n' !in ShardLine(shard, relative)
  {
    hide Decimal, Value, AllDigits;
    DecimalValue(shard.offset);
    DecimalValue(shard.length);
    DigitsAreClean(Decimal(shard.offset));
    DigitsAreClean(Decimal(shard.length));
  }

  /** Three fields of which one holds a tab do not split. */
  lemma {:induction false} TabbedDoesNotSplit(f: Fields)
    requires '\t' in f.path
    ensures SplitLine(Joined(f)) == None
  {
    hide SplitLine, TabFree;
    var line := Joined(f);
    if SplitLine(line).Some? {
      var g := SplitLine(line).value;
      SplitLineExact(line, g);
      var k :| 0 <= k < |f.path| && f.path[k] == '\t';
      TabsOfJoined(g, k);
      TabsOfJoined(g, |f.path|);
      TabsOfJoined(g, |f.path| + 1 + |f.offset|);
    }
  }

  /** What `load` makes of a line that `save` wrote. */
  lemma {:induction false} LineBack(
    shard: Shard, number: nat, alignment: nat, relative: string -> string, resolve: string -> string)
    requires alignment > 0
    ensures var r := ParseLine(ShardLine(shard, relative), number, alignment, resolve);
            && (r == Entry(shard) <==> Writable(shard, alignment, relative, resolve))
            && (r.Skip? <==> relative(shard.path) != "" && relative(shard.path)[0] == '#')
  {
    hide SplitLine, ParseU64, Decimal, Value, AllDigits, Find;
    var written, offset, length := relative(shard.path), Decimal(shard.offset), Decimal(shard.length);
    var line := ShardLine(shard, relative);
    DecimalValue(shard.offset);
    DecimalValue(shard.length);
    DigitsAreClean(offset);
    DigitsAreClean(length);
    assert line[|line| - 1] == length[|length| - 1];
    assert WithoutReturn(line) == line;
    assert line == Joined(Fields(written, offset, length));
    if '\t' in written {
      TabbedDoesNotSplit(Fields(written, offset, length));
    } else {
      SplitLineExact(line, Fields(written, offset, length));
    }
    PrintThenParse(shard.offset);
    PrintThenParse(shard.length);
    WrapTest(shard.offset, shard.length);
    assert written != "" ==> line[0] == written[0];
    assert written == "" ==> line[0] == '\t';
  }

  /** One shard, as `save` writes it and as `load` reads it, also without the final newline. */
  lemma {:induction false} ByHand(resolve: string -> string)
    ensures ShardLines([Shard("a.bin", 0, 409)], path => path) == "a.bin\t0\t409\n"
    ensures ParseLine("a.bin\t0\t409", 1, 512, resolve) == Entry(Shard(resolve("a.bin"), 0, 409))
  {
    hide SplitLine, ParseU64, Decimal, Value;
    BaseTen();
    var shard, same, f := Shard("a.bin", 0, 409), (path: string) => path, Fields("a.bin", "0", "409");
    assert ShardLine(shard, same) == "a.bin\t0\t409";
    NoShardLines(same);
    assert [shard][1..] == [];
    ByDigits();
    assert Joined(f) == "a.bin\t0\t409" == WithoutReturn("a.bin\t0\t409");
    FieldsParse("a.bin\t0\t409", f, 1, 512, resolve);
  }

  lemma {:induction false} ByDigits()
    ensures Value("0") == 0 && AllDigits("0") && AllDigits("409")
  {
    assert "0"[..0] == "";
  }

  /** The lines of what `save` wrote are the shards' lines. */
  lemma {:induction false} LinesOfShards(shards: seq<Shard>, relative: string -> string)
    requires forall i :: 0 <= i < |shards| ==> '\n' !in relative(shards[i].path)
    ensures Lines(ShardLines(shards, relative)) ==
            seq(|shards|, i requires 0 <= i < |shards| => ShardLine(shards[i], relative))
  {
    hide ShardLine, Lines;
    if shards == [] {
      NoLines();
    } else {
      ShardLineHasNoNewline(shards[0], relative);
      FirstLine(ShardLine(shards[0], relative), ShardLines(shards[1..], relative));
      LinesOfShards(shards[1..], relative);
    }
  }

  lemma {:induction false} NoLines()
    ensures Lines("") == []
  {
  }

  /** The shards' lines load as those shards exactly when each of them is writable. */
  lemma {:induction false} ShardsBack(
    shards: seq<Shard>, number: nat, alignment: nat, relative: string -> string, resolve: string -> string)
    requires alignment > 0
    requires forall i :: 0 <= i < |shards| ==> '\n' !in relative(shards[i].path)
    ensures var lines := seq(|shards|, i requires 0 <= i < |shards| => ShardLine(shards[i], relative));
            var r := ParseLines(lines, number, alignment, resolve);
            && (r.Loaded? ==> |r.shards| <= |shards|)
            && (r == Loaded(shards) <==> forall i :: 0 <= i < |shards| ==> Writable(shards[i], alignment, relative, resolve))
    decreases |shards|
  {
    hide ShardLine, ParseLine, Writable;
    if shards != [] {
      var lines := seq(|shards|, i requires 0 <= i < |shards| => ShardLine(shards[i], relative));
      var rest := seq(|shards[1..]|, i requires 0 <= i < |shards[1..]| => ShardLine(shards[1..][i], relative));
      assert lines[0] == ShardLine(shards[0], relative) && lines[1..] == rest;
      LineBack(shards[0], number, alignment, relative, resolve);
      ShardsBack(shards[1..], number + 1, alignment, relative, resolve);
      assert shards == [shards[0]] + shards[1..];
    }
  }

  /** The round trip: loading what `save` wrote gives back the same shards in order if and only if
      every shard is writable. `save` itself checks only for tabs and newlines. */
  lemma {:induction false} RoundTrip(shards: seq<Shard>, alignment: nat, relative: string -> string, resolve: string -> string)
    requires alignment > 0
    requires forall i :: 0 <= i < |shards| ==> '\n' !in relative(shards[i].path)
    ensures ParseLines(Lines(HEADER + "\n" + ShardLines(shards, relative)), 1, alignment, resolve) == Loaded(shards)
       <==> forall i :: 0 <= i < |shards| ==> Writable(shards[i], alignment, relative, resolve)
  {
    hide Writable, ShardLine, ShardLines, Lines;
    FirstLine(HEADER, ShardLines(shards, relative));
    LinesOfShards(shards, relative);
    var lines := seq(|shards|, i requires 0 <= i < |shards| => ShardLine(shards[i], relative));
    assert Lines(HEADER + "\n" + ShardLines(shards, relative))[1..] == lines;
    assert ParseLine(HEADER, 1, alignment, resolve).Skip?;
    ShardsBack(shards, 2, alignment, relative, resolve);
  }

  // ----- written paths that hold a newline -----

  /** What the text written for a shard loads as: its own line, or the lines a newline breaks it into. */
  function LoadsAs(shard: Shard, alignment: nat, relative: string -> string, resolve: string -> string): Loaded
    requires alignment > 0
  {
    ParseLines(Lines(ShardLine(shard, relative) + "\n" + ""), 1, alignment, resolve)
  }

  /** What the shards' texts load as, one after the other. */
  function AllLoadAs(
    shards: seq<Shard>, alignment: nat, relative: string -> string, resolve: string -> string): Option<seq<Shard>>
    requires alignment > 0
  {
    if shards == [] then Some([])
    else
      var first, rest := LoadsAs(shards[0], alignment, relative, resolve), AllLoadAs(shards[1..], alignment, relative, resolve);
      if first.Rejected? || rest.None? then None else Some(first.shards + rest.value)
  }

  lemma {:induction false} LinesSplit(a: string, rest: string)
    ensures Lines(a + "\n" + rest) == Lines(a + "\n" + "") + Lines(rest)
    decreases |a|
  {
    hide Lines, Find;
    NoLines();
    var found := Find(a, '\n', 0);
    if found.None? {
      FirstLine(a, rest);
      FirstLine(a, "");
    } else {
      var x, y := a[..found.value], a[found.value + 1..];
      assert a + "\n" + rest == x + "\n" + (y + "\n" + rest);
      assert a + "\n" + "" == x + "\n" + (y + "\n" + "");
      FirstLine(x, y + "\n" + rest);
      FirstLine(x, y + "\n" + "");
      LinesSplit(y, rest);
    }
  }

  /** Line numbers only show in errors. */
  lemma {:induction false} NumberFree(lines: seq<string>, n: nat, m: nat, alignment: nat, resolve: string -> string)
    requires alignment > 0
    ensures ParseLines(lines, n, alignment, resolve) == ParseLines(lines, m, alignment, resolve)
         || (ParseLines(lines, n, alignment, resolve).Rejected? && ParseLines(lines, m, alignment, resolve).Rejected?)
    decreases |lines|
  {
    hide ParseLine;
    if lines != [] {
      LineNumberFree(lines[0], n, m, alignment, resolve);
      NumberFree(lines[1..], n + 1, m + 1, alignment, resolve);
    }
  }

  lemma {:induction false} LineNumberFree(text: string, n: nat, m: nat, alignment: nat, resolve: string -> string)
    requires alignment > 0
    ensures ParseLine(text, n, alignment, resolve) == ParseLine(text, m, alignment, resolve)
         || (ParseLine(text, n, alignment, resolve).Bad? && ParseLine(text, m, alignment, resolve).Bad?)
  {
    hide SplitLine, ParseU64;
  }

  lemma {:induction false} ParseOn(a: seq<string>, b: seq<string>, n: nat, alignment: nat, resolve: string -> string)
    requires alignment > 0
    ensures ParseLines(a + b, n, alignment, resolve) ==
            match ParseLines(a, n, alignment, resolve)
            case Rejected(error) => Rejected(error)
            case Loaded(shards) => Prepend(shards, ParseLines(b, n + |a|, alignment, resolve))
    decreases |a|
  {
    hide ParseLine;
    if a == [] {
      assert a + b == b;
    } else {
      ParseOn(a[1..], b, n + 1, alignment, resolve);
      assert (a + b)[1..] == a[1..] + b;
    }
  }

  lemma {:induction false} TextsBack(
    shards: seq<Shard>, n: nat, alignment: nat, relative: string -> string, resolve: string -> string)
    requires alignment > 0
    ensures var r, all := ParseLines(Lines(ShardLines(shards, relative)), n, alignment, resolve), AllLoadAs(shards, alignment, relative, resolve);
            if all.None? then r.Rejected? else r == Loaded(all.value)
    decreases |shards|
  {
    hide ShardLine, Lines, ParseLines, LoadsAs;
    if shards == [] {
      NoLines();
      NoMoreLines([], [], alignment, resolve);
      NumberFree([], n, 1, alignment, resolve);
    } else {
      FirstText(shards, n, alignment, relative, resolve);
      TextsBack(shards[1..], n + |Lines(ShardLine(shards[0], relative) + "\n" + "")|, alignment, relative, resolve);
    }
  }

  /** The first shard's text is parsed, then the rest. */
  lemma {:induction false} FirstText(
    shards: seq<Shard>, n: nat, alignment: nat, relative: string -> string, resolve: string -> string)
    requires alignment > 0 && shards != []
    ensures var first, r := LoadsAs(shards[0], alignment, relative, resolve), ParseLines(Lines(ShardLines(shards, relative)), n, alignment, resolve);
            if first.Rejected? then r.Rejected?
            else r == Prepend(first.shards,
                              ParseLines(Lines(ShardLines(shards[1..], relative)),
                                         n + |Lines(ShardLine(shards[0], relative) + "\n" + "")|, alignment, resolve))
  {
    hide ShardLine, Lines, ParseLines, Prepend;
    var text, rest := ShardLine(shards[0], relative), ShardLines(shards[1..], relative);
    var first := Lines(text + "\n" + "");
    LinesSplit(text, rest);
    ParseOn(first, Lines(rest), n, alignment, resolve);
    NumberFree(first, n, 1, alignment, resolve);
  }

  /** What was saved loads as what the shards' texts load as. */
  lemma {:induction false} SavedBack(
    shards: seq<Shard>, alignment: nat, relative: string -> string, resolve: string -> string)
    requires alignment > 0
    ensures var r, all := ParseLines(Lines(HEADER + "\n" + ShardLines(shards, relative)), 1, alignment, resolve),
                          AllLoadAs(shards, alignment, relative, resolve);
            if all.None? then r.Rejected? else r == Loaded(all.value)
  {
    hide ShardLines, Lines, AllLoadAs;
    FirstLine(HEADER, ShardLines(shards, relative));
    assert ParseLine(HEADER, 1, alignment, resolve).Skip?;
    TextsBack(shards, 2, alignment, relative, resolve);
    var lines := Lines(HEADER + "\n" + ShardLines(shards, relative));
    assert lines[1..] == Lines(ShardLines(shards, relative));
  }

  /** The round trip with no condition on the written paths: what was saved loads as the same shards if and
      only if every shard's text loads, and what the texts load as, joined, is the shards. */
  lemma {:induction false} RoundTripExactly(
    shards: seq<Shard>, alignment: nat, relative: string -> string, resolve: string -> string)
    requires alignment > 0
    ensures ParseLines(Lines(HEADER + "\n" + ShardLines(shards, relative)), 1, alignment, resolve) == Loaded(shards)
       <==> AllLoadAs(shards, alignment, relative, resolve) == Some(shards)
  {
    hide ShardLines, Lines, ParseLines, AllLoadAs;
    SavedBack(shards, alignment, relative, resolve);
  }

  lemma {:induction false} OneLine(text: string, n: nat, alignment: nat, resolve: string -> string)
    requires alignment > 0
    ensures ParseLines([text], n, alignment, resolve) ==
            match ParseLine(text, n, alignment, resolve)
            case Skip => Loaded([])
            case Bad(error) => Rejected(error)
            case Entry(shard) => Loaded([shard])
  {
    hide ParseLine;
    assert [text][1..] == [];
    assert ParseLines([], n + 1, alignment, resolve) == Loaded([]);
  }

  /** The text of a path without a newline is one line: it loads as the shard exactly when that is
      writable, and as nothing exactly when the path looks like a comment. */
  lemma {:induction false} LoadsAsLine(
    shard: Shard, alignment: nat, relative: string -> string, resolve: string -> string)
    requires alignment > 0 && '\n' !in relative(shard.path)
    ensures LoadsAs(shard, alignment, relative, resolve) == Loaded([shard]) <==> Writable(shard, alignment, relative, resolve)
    ensures LoadsAs(shard, alignment, relative, resolve) == Loaded([]) <==>
              relative(shard.path) != "" && relative(shard.path)[0] == '#'
  {
    hide ShardLine, Lines, ParseLine, Writable;
    var line := ShardLine(shard, relative);
    ShardLineHasNoNewline(shard, relative);
    FirstLine(line, "");
    NoLines();
    LineBack(shard, 1, alignment, relative, resolve);
    assert Lines(line + "\n" + "") == [line];
    OneLine(line, 1, alignment, resolve);
    assert [shard][0] == shard;
  }

  lemma {:induction false} CommentLoadsAsNothing(
    shard: Shard, alignment: nat, relative: string -> string, resolve: string -> string)
    requires alignment > 0 && '\n' !in relative(shard.path) && relative(shard.path) != "" && relative(shard.path)[0] == '#'
    ensures AllLoadAs([shard], alignment, relative, resolve) == Some([])
  {
    hide LoadsAs, Writable;
    LoadsAsLine(shard, alignment, relative, resolve);
    assert [shard][0] == shard && [shard][1..] == [];
    assert AllLoadAs([], alignment, relative, resolve) == Some([]);
    assert LoadsAs(shard, alignment, relative, resolve).shards + [] == [];
  }

  /** A path that starts with `#` is saved without complaint and skipped on loading. */
  method CommentLikePathIsLost(path: string, offset: u64, length: u64, alignment: nat, resolve: string -> string)
    returns (saved: Saved, r: Loaded)
    requires alignment > 0 && Clean(path) && path != "" && path[0] == '#'
    ensures saved.Saved? && r == Loaded([])
  {
    hide ShardLines, Lines, ParseLines, AllLoadAs;
    var shard, same := Shard(path, offset, length), (p: string) => p;
    var text;
    saved, text := Save([shard], same, true, true);
    r := Load(text, alignment, resolve, true, None);
    assert same(path) == path && forall n :: 0 <= n < |[shard]| ==> [shard][n] == shard;
    CommentLoadsAsNothing(shard, alignment, same, resolve);
    SavedBack([shard], alignment, same, resolve);
  }

  /** `save` then `load`: the shards come back exactly when their texts load as them; for paths written
      without a newline, exactly when all shards are writable. */
  method SaveThenLoad(
    shards: seq<Shard>, alignment: nat, relative: string -> string, resolve: string -> string,
    opens: bool, holds: bool, breaksAfter: Option<nat>)
    returns (saved: Saved, r: Loaded)
    requires alignment > 0
    ensures saved.Saved? <==> opens && holds && forall i :: 0 <= i < |shards| ==> Clean(shards[i].path)
    ensures breaksAfter.Some? || !opens ==> r.Rejected?
    ensures saved.Saved? && breaksAfter.None? ==>
              && (r == Loaded(shards) <==> AllLoadAs(shards, alignment, relative, resolve) == Some(shards))
              && ((forall i :: 0 <= i < |shards| ==> '\n' !in relative(shards[i].path)) ==>
                    (r == Loaded(shards) <==>
                     forall i :: 0 <= i < |shards| ==> Writable(shards[i], alignment, relative, resolve)))
  {
    hide Writable, ShardLines, Lines, ParseLines, Clean, AllLoadAs;
    var text;
    saved, text := Save(shards, relative, opens, holds);
    r := Load(text, alignment, resolve, opens, breaksAfter);
    if saved.Saved? {
      RoundTripExactly(shards, alignment, relative, resolve);
      if forall i :: 0 <= i < |shards| ==> '\n' !in relative(shards[i].path) {
        RoundTrip(shards, alignment, relative, resolve);
      }
    }
  }
}
