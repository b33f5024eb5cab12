/** The text of an .rdp file: its parser, its printer, and what printing and parsing again keeps.
    A text is a sequence of Unicode characters. */
module RdpText {
  datatype Value = Int(i: int) | Str(s: string) | Bool(b: bool) | Other

  datatype Result<T> = Ok(value: T) | Malformed

  // ---- characters ----

  /** unicode.IsSpace. */
  predicate IsSpace(c: char) {
    || '\t' <= c <= '\r' || c == ' ' || c == '\U{85}' || c == '\U{A0}' || c == '\U{1680}'
    || '\U{2000}' <= c <= '\U{200A}' || c == '\U{2028}' || c == '\U{2029}' || c == '\U{202F}'
    || c == '\U{205F}' || c == '\U{3000}'
  }

  function TrimLeft(s: string): string {
    if s != "" && IsSpace(s[0]) then TrimLeft(s[1..]) else s
  }

  function TrimRight(s: string): string {
    if s != "" && IsSpace(s[|s| - 1]) then TrimRight(s[..|s| - 1]) else s
  }

  /** strings.TrimSpace. */
  function Trim(s: string): string {
    TrimRight(TrimLeft(s))
  }

  predicate Trimmed(s: string) {
    s == "" || (!IsSpace(s[0]) && !IsSpace(s[|s| - 1]))
  }

  lemma {:induction false} TrimLeftMeaning(s: string)
    ensures exists k | 0 <= k <= |s| :: TrimLeft(s) == s[k..]
    ensures TrimLeft(s) == "" || !IsSpace(TrimLeft(s)[0])
  {
    hide IsSpace;
    if s != "" && IsSpace(s[0]) {
      TrimLeftMeaning(s[1..]);
      var k :| 0 <= k <= |s[1..]| && TrimLeft(s[1..]) == s[1..][k..];
      assert s[1..][k..] == s[k + 1..];
    } else {
      assert s[0..] == s;
    }
  }

  lemma {:induction false} TrimRightMeaning(s: string)
    ensures exists k | 0 <= k <= |s| :: TrimRight(s) == s[..k]
    ensures TrimRight(s) == "" || !IsSpace(TrimRight(s)[|TrimRight(s)| - 1])
  {
    hide IsSpace;
    if s != "" && IsSpace(s[|s| - 1]) {
      TrimRightMeaning(s[..|s| - 1]);
      var k :| 0 <= k <= |s| - 1 && TrimRight(s[..|s| - 1]) == s[..|s| - 1][..k];
      assert s[..|s| - 1][..k] == s[..k];
    } else {
      assert s[..|s|] == s;
    }
  }

  /** Trimming leaves a middle part that needs no more trimming. */
  lemma TrimMeaning(s: string)
    ensures Trimmed(Trim(s))
    ensures forall c | c in Trim(s) :: c in s
    ensures Trimmed(s) ==> Trim(s) == s
  {
    hide IsSpace;
    var t := TrimLeft(s);
    TrimLeftMeaning(s);
    TrimRightMeaning(t);
    var k :| 0 <= k <= |s| && t == s[k..];
    var n :| 0 <= n <= |t| && TrimRight(t) == t[..n];
    assert forall c | c in t[..n] :: c in t;
  }

  // ---- lines ----

  /** The place of the first `c`, or the end. */
  function Find(s: string, c: char): (k: nat)
    ensures k <= |s|
    ensures k < |s| ==> s[k] == c
    ensures c !in s[..k]
  {
    if s == "" || s[0] == c then 0
    else
      var k := Find(s[1..], c);
      assert s[..k + 1] == [s[0]] + s[1..][..k];
      k + 1
  }

  lemma {:induction false} FindIn(a: string, c: char, rest: string)
    requires c !in a
    ensures Find(a + [c] + rest, c) == |a|
  {
    var s := a + [c] + rest;
    if a != "" {
      FindIn(a[1..], c, rest);
      assert s[1..] == a[1..] + [c] + rest;
    }
  }

  function Utf8Size(c: char): nat {
    if c < '\U{80}' then 1 else if c < '\U{800}' then 2 else if c < '\U{10000}' then 3 else 4
  }

  function ByteSize(s: string): nat {
    if s == "" then 0 else Utf8Size(s[0]) + ByteSize(s[1..])
  }

  /** The most bytes bufio.Scanner's buffer has room for before a line's newline. */
  const MAX_LINE: nat := 65535

  function DropCr(s: string): string {
    if s != "" && s[|s| - 1] == '\r' then s[..|s| - 1] else s
  }

  /** The lines a Scanner yields. It stops without further notice at one that does not fit its buffer. */
  function Lines(text: string): seq<string> {
    if text == "" then []
    else
      var k := Find(text, '\n');
      if ByteSize(text[..k]) > MAX_LINE then []
      else [DropCr(text[..k])] + if k == |text| then [] else Lines(text[k + 1..])
  }

  // ---- integers ----

  const MAX_INT: int := 0x7FFF_FFFF_FFFF_FFFF

  predicate IsInt64(i: int) {
    -MAX_INT - 1 <= i <= MAX_INT
  }

  predicate IsDigit(c: char) {
    '0' <= c <= '9'
  }

  function DigitValue(c: char): nat
    requires IsDigit(c)
  {
    c as int - '0' as int
  }

  function DigitsValue(s: string): nat
    requires forall c | c in s :: IsDigit(c)
  {
    if s == "" then 0
    else
      assert s[|s| - 1] in s;
      10 * DigitsValue(s[..|s| - 1]) + DigitValue(s[|s| - 1])
  }

  /** strconv.Atoi. */
  function Atoi(s: string): Result<int> {
    var digits := if s != "" && (s[0] == '-' || s[0] == '+') then s[1..] else s;
    if digits == "" || exists c | c in digits :: !IsDigit(c) then Malformed
    else
      var n := DigitsValue(digits);
      var i: int := if s[0] == '-' then -(n as int) else n;
      if IsInt64(i) then Ok(i) else Malformed
  }

  function Digits(n: nat): (s: string)
    ensures s != "" && forall c | c in s :: IsDigit(c)
  {
    var last := [(n % 10 + '0' as int) as char];
    if n < 10 then last else Digits(n / 10) + last
  }

  /** The verb %d. */
  function Itoa(i: int): string {
    if i < 0 then "-" + Digits(-i) else Digits(i)
  }

  lemma {:induction false} DigitsRead(n: nat)
    ensures DigitsValue(Digits(n)) == n
  {
    var s := Digits(n);
    if n >= 10 {
      DigitsRead(n / 10);
      assert s[..|s| - 1] == Digits(n / 10);
    } else {
      assert s[..|s| - 1] == "";
    }
  }

  lemma AtoiUndoesItoa(i: int)
    requires IsInt64(i)
    ensures Atoi(Itoa(i)) == Ok(i)
    ensures Itoa(i) != "" && forall c | c in Itoa(i) :: IsDigit(c) || c == '-'
  {
    hide Digits, DigitsValue;
    var s := Itoa(i);
    if i < 0 {
      DigitsRead(-i);
      assert s[1..] == Digits(-i);
    } else {
      DigitsRead(i);
      assert s[0] in s;
    }
  }

  // ---- one line ----

  datatype Line = Blank | Entry(key: string, value: Value) | Bad

  function ParseLine(raw: string): Line {
    var line := Trim(raw);
    if line == "" || line[0] == '#' then Blank
    else
      var i := Find(line, ':');
      if i == |line| then Bad
      else
        var rest := line[i + 1..];
        var j := Find(rest, ':');
        if j == |rest| then Bad
        else
          var key, t, val := Trim(line[..i]), Trim(rest[..j]), Trim(rest[j + 1..]);
          if t == "i" then
            match Atoi(val)
            case Ok(n) => Entry(key, Int(n))
            case Malformed => Bad
          else if t == "s" || t == "b" then Entry(key, Str(val))
          else Bad
  }

  function TypeOf(v: Value): string {
    if v.Str? then "s" else "i"
  }

  function ValueText(v: Value): string
    requires !v.Other?
  {
    match v
    case Int(i) => Itoa(i)
    case Str(s) => s
    case Bool(b) => if b then "1" else "0"
  }

  function PrintLine(key: string, v: Value): string
    requires !v.Other?
  {
    key + ":" + TypeOf(v) + ":" + ValueText(v)
  }

  /** What a printed value is read as: booleans come back as numbers. */
  function ReadAs(v: Value): Value {
    if v.Bool? then Int(if v.b then 1 else 0) else v
  }

  predicate PlainKey(key: string) {
    Trimmed(key) && ':' !in key && '\n' !in key && (key == "" || key[0] != '#')
  }

  predicate PlainValue(v: Value) {
    match v
    case Int(i) => IsInt64(i)
    case Str(s) => Trimmed(s) && '\n' !in s
    case Bool(_) => true
    case Other => false
  }

  lemma TextIsPlain(v: Value)
    requires PlainValue(v)
    ensures Trimmed(ValueText(v)) && '\n' !in ValueText(v)
    ensures !v.Str? ==> Atoi(ValueText(v)) == Ok(ReadAs(v).i)
  {
    match v {
      case Int(i) =>
        AtoiUndoesItoa(i);
        assert Itoa(i)[0] in Itoa(i) && Itoa(i)[|Itoa(i)| - 1] in Itoa(i);
      case Bool(b) =>
        AtoiUndoesItoa(if b then 1 else 0);
        assert Itoa(1) == "1" && Itoa(0) == "0";
      case Str(s) =>
    }
  }

  /** A line of three fields is taken apart into them; what there is beyond numbers and texts is refused. */
  lemma ParseFields(key: string, t: string, text: string)
    requires PlainKey(key) && Trimmed(t) && ':' !in t && Trimmed(text)
    ensures ParseLine(key + ":" + t + ":" + text)
         == if t == "s" || t == "b" then Entry(key, Str(text))
            else if t != "i" then Bad
            else match Atoi(text) case Ok(n) => Entry(key, Int(n)) case Malformed => Bad
  {
    hide Atoi, Trim, Trimmed, Find, ParseLine;
    var rest := t + ":" + text;
    var line := key + ":" + t + ":" + text;
    assert line == key + ":" + rest;
    LineIsTrimmed(key, t, text);
    TrimMeaning(line);
    FieldSplits(key, rest);
    FieldSplits(t, text);
    assert line[0] == if key == "" then ':' else key[0];
    TrimMeaning(key);
    TrimMeaning(text);
    TrimMeaning(t);
    ThreeFields(line, key, t, text);
  }

  /** A trimmed line that is no comment, given its three fields. */
  lemma ThreeFields(line: string, key: string, t: string, text: string)
    requires Trim(line) == line && line != "" && line[0] != '#'
    requires var i := Find(line, ':');
             && i < |line| && Trim(line[..i]) == key
             && var rest := line[i + 1..];
                var j := Find(rest, ':');
                j < |rest| && Trim(rest[..j]) == t && Trim(rest[j + 1..]) == text
    ensures ParseLine(line)
         == if t == "s" || t == "b" then Entry(key, Str(text))
            else if t != "i" then Bad
            else match Atoi(text) case Ok(n) => Entry(key, Int(n)) case Malformed => Bad
  {
    hide Atoi, Trim, Find;
  }

  /** Blank lines and comments are passed over; a line with fewer than two colons is refused. */
  lemma OtherLines(raw: string)
    ensures ParseLine(raw).Blank? <==> Trim(raw) == "" || Trim(raw)[0] == '#'
    ensures Trim(raw) != "" && Trim(raw)[0] != '#' && Colons(Trim(raw)) < 2 ==> ParseLine(raw).Bad?
  {
    hide Trim, Atoi;
    var line := Trim(raw);
    var i := Find(line, ':');
    ColonsAfter(line);
    if i < |line| {
      ColonsAfter(line[i + 1..]);
    }
  }

  function Colons(s: string): nat {
    if s == "" then 0 else (if s[0] == ':' then 1 else 0) + Colons(s[1..])
  }

  lemma {:induction false} ColonsAfter(s: string)
    ensures var i := Find(s, ':');
            Colons(s) == if i == |s| then 0 else 1 + Colons(s[i + 1..])
  {
    if s != "" && s[0] != ':' {
      ColonsAfter(s[1..]);
      var k := Find(s[1..], ':');
      if k < |s[1..]| { assert s[1..][k + 1..] == s[k + 2..]; }
    }
  }

  /** The first field of a line, and what follows its colon. */
  lemma FieldSplits(field: string, rest: string)
    requires ':' !in field
    ensures var line := field + ":" + rest;
            Find(line, ':') == |field| && line[..|field|] == field && line[|field| + 1..] == rest
  {
    FindIn(field, ':', rest);
    assert field + ":" + rest == field + [':'] + rest;
  }

  lemma LineIsTrimmed(key: string, t: string, text: string)
    requires Trimmed(key) && Trimmed(text)
    ensures Trimmed(key + ":" + t + ":" + text)
  {
    var line := key + ":" + t + ":" + text;
    assert line[|line| - 1] == if text == "" then ':' else text[|text| - 1];
    assert line[0] == if key == "" then ':' else key[0];
  }

  /** A printed line is read as what was printed. */
  lemma ParsePrinted(key: string, v: Value)
    requires PlainKey(key) && PlainValue(v)
    ensures ParseLine(PrintLine(key, v)) == Entry(key, ReadAs(v))
    ensures '\n' !in PrintLine(key, v)
  {
    hide Itoa, Atoi, ParseLine, Trimmed;
    TextIsPlain(v);
    TypeIsTrimmed(v);
    ParseFields(key, TypeOf(v), ValueText(v));
  }

  lemma TypeIsTrimmed(v: Value)
    ensures Trimmed(TypeOf(v)) && ':' !in TypeOf(v)
  {
  }

  /** Whatever a line is read as can be printed. */
  lemma ParsedIsPlain(raw: string)
    requires '\n' !in raw && ParseLine(raw).Entry?
    ensures var e := ParseLine(raw); PlainKey(e.key) && PlainValue(e.value) && !e.value.Bool?
  {
    hide Atoi, Trim, Trimmed;
    var line := Trim(raw);
    TrimMeaning(raw);
    var i := Find(line, ':');
    var rest := line[i + 1..];
    var j := Find(rest, ':');
    TrimMeaning(line[..i]);
    TrimMeaning(rest[j + 1..]);
    AtoiInRange(Trim(rest[j + 1..]));
    var key := Trim(line[..i]);
    if key != "" {
      assert key[0] == line[0] by { TrimKeepsStart(raw, i); }
    }
  }

  lemma AtoiInRange(s: string)
    ensures Atoi(s).Ok? ==> IsInt64(Atoi(s).value)
  {
  }

  /** A field at the start of a trimmed line starts as the line does. */
  lemma TrimKeepsStart(raw: string, i: nat)
    requires i <= |Trim(raw)| && Trim(Trim(raw)[..i]) != ""
    ensures Trim(Trim(raw)[..i])[0] == Trim(raw)[0]
  {
    var line := Trim(raw);
    TrimMeaning(raw);
    TrimRightMeaning(line[..i]);
    assert i > 0 && TrimLeft(line[..i]) == line[..i];
  }

  // ---- whole texts ----

  type Settings = map<string, Value>

  /** The scan loop from some line on; a later entry of a key replaces an earlier one. */
  function Collect(lines: seq<string>, mp: Settings): Result<Settings>
    decreases |lines|
  {
    if lines == [] then Ok(mp)
    else
      match ParseLine(lines[0])
      case Blank => Collect(lines[1..], mp)
      case Bad => Malformed
      case Entry(key, value) => Collect(lines[1..], mp[key := value])
  }

  function Unmarshalled(text: string): Result<Settings> {
    Collect(Lines(text), map[])
  }

  method Unmarshal(text: string) returns (r: Result<Settings>)
    ensures r == Unmarshalled(text)
  {
    hide ParseLine;
    var lines := Lines(text);
    var mp: Settings := map[];
    var c := 0;
    while c < |lines|
      invariant 0 <= c <= |lines|
      invariant Collect(lines[c..], mp) == Unmarshalled(text)
    {
      assert lines[c..][1..] == lines[c + 1..];
      match ParseLine(lines[c]) {
        case Blank =>
        case Bad => return Malformed;
        case Entry(key, value) => mp := mp[key := value];
      }
      c := c + 1;
    }
    assert lines[c..] == [];
    r := Ok(mp);
  }

  datatype Option<T> = None | Some(value: T)

  predicate EntryOf(line: string, key: string) {
    ParseLine(line).Entry? && ParseLine(line).key == key
  }

  /** The value of the last entry of a key. */
  function Latest(lines: seq<string>, key: string): Option<Value> {
    if lines == [] then None
    else if Latest(lines[1..], key).Some? then Latest(lines[1..], key)
    else if EntryOf(lines[0], key) then Some(ParseLine(lines[0]).value)
    else None
  }

  lemma {:induction false} LatestIsLast(lines: seq<string>, key: string)
    ensures Latest(lines, key).None? <==> forall l | l in lines :: !EntryOf(l, key)
    ensures Latest(lines, key).Some? ==>
              exists i | 0 <= i < |lines| ::
                && EntryOf(lines[i], key) && ParseLine(lines[i]).value == Latest(lines, key).value
                && forall j | i < j < |lines| :: !EntryOf(lines[j], key)
  {
    hide ParseLine;
    if lines != [] {
      var later := lines[1..];
      LatestIsLast(later, key);
      assert forall j | 0 < j < |lines| :: lines[j] == later[j - 1];
      assert forall l | l in lines :: l == lines[0] || l in later;
      if Latest(later, key).Some? {
        var i :| 0 <= i < |later| && EntryOf(later[i], key) && ParseLine(later[i]).value == Latest(later, key).value
                 && forall j | i < j < |later| :: !EntryOf(later[j], key);
        assert EntryOf(lines[i + 1], key);
        forall j | i + 1 < j < |lines| ensures !EntryOf(lines[j], key) {
          assert lines[j] == later[j - 1];
        }
      }
    }
  }

  lemma {:induction false} CollectMeaning(lines: seq<string>, mp: Settings)
    ensures var r := Collect(lines, mp);
            && (r.Ok? <==> forall l | l in lines :: !ParseLine(l).Bad?)
            && (r.Ok? ==> forall k ::
                  && (k in r.value <==> Latest(lines, k).Some? || k in mp)
                  && (Latest(lines, k).Some? ==> r.value[k] == Latest(lines, k).value)
                  && (Latest(lines, k).None? && k in mp ==> r.value[k] == mp[k]))
    decreases |lines|
  {
    hide ParseLine;
    if lines != [] {
      var e := ParseLine(lines[0]);
      assert forall l | l in lines :: l == lines[0] || l in lines[1..];
      assert lines[0] in lines && forall l | l in lines[1..] :: l in lines;
      if !e.Bad? {
        CollectMeaning(lines[1..], if e.Entry? then mp[e.key := e.value] else mp);
      }
    }
  }

  /** A text is read if and only if none of its lines is malformed; its settings are then the keys of its
      entries, each with the value of its last one. */
  lemma UnmarshalMeaning(text: string)
    ensures var r := Unmarshalled(text);
            && (r.Ok? <==> forall l | l in Lines(text) :: !ParseLine(l).Bad?)
            && (r.Ok? ==> forall k ::
                  && (k in r.value <==> Latest(Lines(text), k).Some?)
                  && (k in r.value ==> r.value[k] == Latest(Lines(text), k).value))
  {
    hide ParseLine, Lines, Latest;
    CollectMeaning(Lines(text), map[]);
  }

  /** Lines end at newlines, with or without a carriage return before them, or at the end of the text; one that
      does not fit the buffer ends the reading. */
  lemma LinesMeaning(line: string, rest: string)
    requires '\n' !in line
    ensures Lines(line + "\n" + rest) == if ByteSize(line) > MAX_LINE then [] else [DropCr(line)] + Lines(rest)
    ensures line != "" ==> Lines(line) == if ByteSize(line) > MAX_LINE then [] else [DropCr(line)]
    ensures Lines("") == []
  {
    hide ByteSize, DropCr;
    var text := line + "\n" + rest;
    FindIn(line, '\n', rest);
    assert text == line + ['\n'] + rest;
    assert text[..|line|] == line && text[|line| + 1..] == rest;
    assert Find(line, '\n') == |line| && line[..|line|] == line;
  }

  /** Go's order on strings, which for UTF-8 is the order of code points. */
  predicate Before(a: string, b: string) {
    if b == "" then false
    else if a == "" then true
    else a[0] < b[0] || (a[0] == b[0] && Before(a[1..], b[1..]))
  }

  predicate Sorted(keys: seq<string>) {
    forall i, j | 0 <= i < j < |keys| :: Before(keys[i], keys[j])
  }

  predicate Printable(mp: Settings) {
    forall k | k in mp :: !mp[k].Other?
  }

  /** The lines of the given keys, in their order. */
  function Print(keys: seq<string>, mp: Settings): string
    requires forall k | k in keys :: k in mp && !mp[k].Other?
  {
    if keys == [] then ""
    else PrintLine(keys[0], mp[keys[0]]) + "\r\n" + Print(keys[1..], mp)
  }

  predicate PlainSettings(mp: Settings) {
    forall k | k in mp :: PlainKey(k) && PlainValue(mp[k])
  }

  /** A printed line, with its carriage return, fits the scanner's buffer. */
  predicate LineFits(key: string, v: Value)
    requires !v.Other?
  {
    ByteSize(PrintLine(key, v) + "\r") <= MAX_LINE
  }

  predicate AllLinesFit(mp: Settings)
    requires Printable(mp)
  {
    forall k | k in mp :: LineFits(k, mp[k])
  }

  lemma FirstLine(line: string, rest: string)
    requires '\n' !in line
    ensures Lines(line + "\r\n" + rest)
         == if ByteSize(line + "\r") > MAX_LINE then [] else [line] + Lines(rest)
  {
    var text, l := line + "\r\n" + rest, line + "\r";
    assert text == l + ['\n'] + rest;
    FindIn(l, '\n', rest);
    assert text[..|l|] == l && text[|l| + 1..] == rest;
    assert DropCr(l) == line;
    if rest == "" {
      assert Lines(rest) == [];
    }
  }

  function ReadAll(keys: seq<string>, mp: Settings): Settings
    requires forall k | k in keys :: k in mp
  {
    map k | k in keys :: ReadAs(mp[k])
  }

  predicate Distinct(keys: seq<string>) {
    forall i, j | 0 <= i < j < |keys| :: keys[i] != keys[j]
  }

  lemma ReadAllCons(keys: seq<string>, n: nat, mp: Settings, done: Settings)
    requires keys != [] && n < |keys| && Distinct(keys)
    requires forall k | k in keys :: k in mp
    ensures done[keys[0] := ReadAs(mp[keys[0]])] + ReadAll(keys[1..][..n], mp) == done + ReadAll(keys[..n + 1], mp)
  {
    hide ReadAs;
    assert keys[..n + 1] == [keys[0]] + keys[1..][..n];
    assert keys[0] !in keys[1..][..n];
  }

  lemma ReadAllNone(keys: seq<string>, mp: Settings, done: Settings)
    requires forall k | k in keys :: k in mp
    ensures done + ReadAll(keys[..0], mp) == done
  {
  }

  /** Reading a print back gives the entries up to the first line that does not fit. */
  lemma {:induction false} CollectPrinted(keys: seq<string>, mp: Settings, done: Settings) returns (n: nat)
    requires PlainSettings(mp) && Distinct(keys)
    requires forall k | k in keys :: k in mp
    ensures n <= |keys|
    ensures forall i | 0 <= i < n :: LineFits(keys[i], mp[keys[i]])
    ensures n < |keys| ==> !LineFits(keys[n], mp[keys[n]])
    ensures Collect(Lines(Print(keys, mp)), done) == Ok(done + ReadAll(keys[..n], mp))
    decreases |keys|
  {
    assert Printable(mp) by { PlainIsPrintable(mp); }
    hide PrintLine, ParseLine, ByteSize, Lines, PlainKey, PlainValue, ReadAll, ReadAs;
    if keys == [] {
      n := 0;
      ReadAllNone(keys, mp, done);
      assert Lines("") == [] by { NoLines(); }
    } else {
      var key, v := keys[0], mp[keys[0]];
      assert key in keys;
      ParsePrinted(key, v);
      FirstLine(PrintLine(key, v), Print(keys[1..], mp));
      if LineFits(key, v) {
        var n' := CollectPrinted(keys[1..], mp, done[key := ReadAs(v)]);
        n := n' + 1;
        ReadAllCons(keys, n', mp, done);
      } else {
        n := 0;
        assert Collect([], done) == Ok(done);
        ReadAllNone(keys, mp, done);
      }
    }
  }

  lemma PlainIsPrintable(mp: Settings)
    requires PlainSettings(mp)
    ensures Printable(mp)
  {
  }

  lemma NoLines()
    ensures Lines("") == []
  {
  }

  // ---- the order of keys ----

  lemma {:induction false} BeforeIsStrict(a: string, b: string, c: string)
    ensures !Before(a, a)
    ensures Before(a, b) && Before(b, c) ==> Before(a, c)
    ensures a != b ==> Before(a, b) || Before(b, a)
    decreases |a| + |b| + |c|
  {
    if a != "" {
      BeforeIsStrict(a[1..], if b == "" then "" else b[1..], if c == "" then "" else c[1..]);
      if b != "" && a[0] == b[0] && a != b {
        assert a == [a[0]] + a[1..] && b == [b[0]] + b[1..];
      }
    }
  }

  /** `keys` are the map's keys in order. */
  ghost predicate Enumerates(keys: seq<string>, mp: Settings) {
    Sorted(keys) && forall k :: k in keys <==> k in mp
  }

  lemma SortedIsDistinct(keys: seq<string>)
    requires Sorted(keys)
    ensures Distinct(keys)
  {
    forall i, j | 0 <= i < j < |keys| ensures keys[i] != keys[j] {
      BeforeIsStrict(keys[i], keys[j], "");
    }
  }

  predicate SameKeys(a: seq<string>, b: seq<string>) {
    (forall k | k in a :: k in b) && (forall k | k in b :: k in a)
  }

  lemma HeadsAgree(a: seq<string>, b: seq<string>)
    requires Sorted(a) && Sorted(b) && SameKeys(a, b) && a != []
    ensures b != [] && a[0] == b[0]
  {
    hide Before;
    assert a[0] in b && b[0] in a;
    var i: nat, j: nat :| i < |b| && b[i] == a[0] && j < |a| && a[j] == b[0];
    BeforeIsStrict(a[0], b[0], a[0]);
  }

  lemma TailKeys(a: seq<string>, b: seq<string>)
    requires a != [] && b != [] && a[0] == b[0] && Distinct(a) && SameKeys(a, b)
    ensures forall k | k in a[1..] :: k in b[1..]
  {
    forall k | k in a[1..] ensures k in b[1..] {
      assert k in a && k in b && k != a[0];
    }
  }

  /** There is only one order, so the printer's output does not depend on how the map is iterated. */
  lemma {:induction false} EnumerationIsUnique(a: seq<string>, b: seq<string>)
    requires Sorted(a) && Sorted(b) && SameKeys(a, b)
    ensures a == b
    decreases |a|
  {
    hide Before, Sorted, Distinct;
    assert b == [] || b[0] in b;
    if a != [] {
      HeadsAgree(a, b);
      SortedIsDistinct(a);
      SortedIsDistinct(b);
      TailKeys(a, b);
      TailKeys(b, a);
      SortedTail(a);
      SortedTail(b);
      EnumerationIsUnique(a[1..], b[1..]);
      assert a == [a[0]] + a[1..] && b == [b[0]] + b[1..];
    }
  }

  lemma SortedTail(a: seq<string>)
    requires Sorted(a) && a != []
    ensures Sorted(a[1..])
  {
    hide Before;
  }

  method InsertKey(keys: seq<string>, k: string) returns (r: seq<string>)
    requires Sorted(keys) && k !in keys
    ensures Sorted(r) && forall x :: x in r <==> x == k || x in keys
  {
    hide Before;
    var i := 0;
    while i < |keys| && Before(keys[i], k)
      invariant 0 <= i <= |keys|
      invariant forall j | 0 <= j < i :: Before(keys[j], k)
    {
      i := i + 1;
    }
    r := keys[..i] + [k] + keys[i..];
    assert keys == keys[..i] + keys[i..];
    forall j | i <= j < |keys| ensures Before(k, keys[j]) {
      BeforeIsStrict(k, keys[i], keys[j]);
    }
  }

  method SortedKeys(mp: Settings) returns (keys: seq<string>)
    ensures Enumerates(keys, mp)
  {
    hide Before;
    keys := [];
    var left := mp.Keys;
    while left != {}
      invariant left <= mp.Keys && Sorted(keys)
      invariant forall k :: k in keys <==> k in mp && k !in left
      decreases left
    {
      var k :| k in left;
      left := left - {k};
      keys := InsertKey(keys, k);
    }
  }

  lemma PrintStep(keys: seq<string>, i: nat, mp: Settings)
    requires i < |keys| && Printable(mp) && forall k | k in keys :: k in mp
    ensures Print(keys[i..], mp) == PrintLine(keys[i], mp[keys[i]]) + "\r\n" + Print(keys[i + 1..], mp)
  {
    hide PrintLine;
    assert keys[i..][0] == keys[i] && keys[i..][1..] == keys[i + 1..];
  }

  method Marshal(mp: Settings) returns (r: Result<string>)
    ensures !Printable(mp) ==> r == Malformed
    ensures Printable(mp) ==> exists keys :: Enumerates(keys, mp) && r == Ok(Print(keys, mp))
  {
    hide PrintLine, Sorted, Print;
    var keys := SortedKeys(mp);
    var b, i := "", 0;
    assert keys[0..] == keys;
    while i < |keys|
      invariant 0 <= i <= |keys|
      invariant forall j | 0 <= j < i :: !mp[keys[j]].Other?
      invariant Printable(mp) ==> b + Print(keys[i..], mp) == Print(keys, mp)
    {
      var v := mp[keys[i]];
      if v.Other? {
        return Malformed;
      }
      if Printable(mp) {
        PrintStep(keys, i, mp);
        assert b + (PrintLine(keys[i], v) + "\r\n" + Print(keys[i + 1..], mp))
            == b + PrintLine(keys[i], v) + "\r\n" + Print(keys[i + 1..], mp);
      }
      b := b + PrintLine(keys[i], v);
      b := b + "\r\n";
      i := i + 1;
    }
    forall k | k in mp ensures !mp[k].Other? {
      assert k in keys;
    }
    NothingToPrint(keys[i..], mp);
    assert b + "" == b;
    r := Ok(b);
  }

  lemma NothingToPrint(keys: seq<string>, mp: Settings)
    requires keys == []
    ensures Print(keys, mp) == ""
  {
  }

  // ---- parsing after printing ----

  function ReadBack(mp: Settings): Settings {
    map k | k in mp :: ReadAs(mp[k])
  }

  lemma ReadUpTo(mp: Settings, keys: seq<string>) returns (n: nat)
    requires PlainSettings(mp) && Distinct(keys)
    requires forall k | k in keys :: k in mp
    ensures n <= |keys| && Printable(mp)
    ensures forall i | 0 <= i < n :: LineFits(keys[i], mp[keys[i]])
    ensures n < |keys| ==> !LineFits(keys[n], mp[keys[n]])
    ensures Unmarshalled(Print(keys, mp)) == Ok(ReadAll(keys[..n], mp))
  {
    hide *;
    PlainIsPrintable(mp);
    assert forall k | k in mp :: !mp[k].Other? by { PrintableMeans(mp); }
    n := CollectPrinted(keys, mp, map[]);
    EmptyPlus(ReadAll(keys[..n], mp));
    UnmarshalledIs(Print(keys, mp));
  }

  lemma PrintableMeans(mp: Settings)
    requires Printable(mp)
    ensures forall k | k in mp :: !mp[k].Other?
  {
  }

  lemma EmptyPlus(m: Settings)
    ensures map[] + m == m
  {
  }

  lemma UnmarshalledIs(text: string)
    ensures Unmarshalled(text) == Collect(Lines(text), map[])
  {
  }

  /** Plain settings survive printing and reading, booleans as 0 and 1, exactly when every line printed fits
      the scanner. */
  lemma MarshalRoundTrip(mp: Settings, keys: seq<string>)
    requires PlainSettings(mp) && Enumerates(keys, mp)
    ensures Printable(mp)
    ensures Unmarshalled(Print(keys, mp)) == Ok(ReadBack(mp)) <==> AllLinesFit(mp)
  {
    hide ReadAs, ReadBack, ReadAll, Print, Unmarshalled, LineFits, Sorted, PlainSettings;
    SortedIsDistinct(keys);
    var n := ReadUpTo(mp, keys);
    ReadAllIsReadBack(mp, keys, n);
    if n == |keys| {
      forall k | k in mp ensures LineFits(k, mp[k]) {
        assert k in keys;
      }
    } else {
      assert keys[n] in keys;
    }
  }

  lemma ReadAllIsReadBack(mp: Settings, keys: seq<string>, n: nat)
    requires n <= |keys| && Distinct(keys)
    requires forall k :: k in keys <==> k in mp
    ensures ReadAll(keys[..n], mp) == ReadBack(mp) <==> n == |keys|
  {
    hide ReadAs;
    if n == |keys| {
      assert keys[..n] == keys;
    } else {
      assert keys[n] in keys && keys[n] in ReadBack(mp);
      assert keys[n] !in keys[..n];
    }
  }

  lemma {:induction false} LinesHaveNoNewline(text: string)
    ensures forall l | l in Lines(text) :: '\n' !in l
    decreases |text|
  {
    hide ByteSize, DropCr;
    if text != "" {
      var k := Find(text, '\n');
      DropCrKeepsOut(text[..k]);
      if k < |text| {
        LinesHaveNoNewline(text[k + 1..]);
      }
    }
  }

  lemma DropCrKeepsOut(s: string)
    requires '\n' !in s
    ensures '\n' !in DropCr(s)
  {
  }

  lemma {:induction false} CollectedIsPlain(lines: seq<string>, mp: Settings)
    requires forall l | l in lines :: '\n' !in l
    requires PlainSettings(mp) && ReadBack(mp) == mp
    ensures var r := Collect(lines, mp); r.Ok? ==> PlainSettings(r.value) && ReadBack(r.value) == r.value
    decreases |lines|
  {
    hide ParseLine, PlainKey, PlainValue;
    if lines != [] {
      assert lines[0] in lines;
      var e := ParseLine(lines[0]);
      match e {
        case Blank => CollectedIsPlain(lines[1..], mp);
        case Bad =>
        case Entry(key, value) =>
          ParsedIsPlain(lines[0]);
          var mp' := mp[key := value];
          assert forall k | k in mp' :: k == key || (k in mp && mp'[k] == mp[k]);
          assert forall k | k in mp :: ReadBack(mp)[k] == mp[k];
          assert ReadBack(mp') == mp';
          CollectedIsPlain(lines[1..], mp');
      }
    }
  }

  /** The normal form: whatever a text is read as is read again from its own print, provided its lines fit;
      a text with a line of full length and no carriage return is one whose print no longer does. */
  lemma NormalForm(text: string, keys: seq<string>)
    requires Unmarshalled(text).Ok?
    requires Enumerates(keys, Unmarshalled(text).value)
    ensures var mp := Unmarshalled(text).value;
            Printable(mp) && (Unmarshalled(Print(keys, mp)) == Ok(mp) <==> AllLinesFit(mp))
  {
    hide ParseLine, Lines, Collect, Enumerates;
    LinesHaveNoNewline(text);
    assert ReadBack(map[]) == map[];
    CollectedIsPlain(Lines(text), map[]);
    MarshalRoundTrip(Unmarshalled(text).value, keys);
  }

  // ---- a text whose print is not read back ----

  function Letters(n: nat): (s: string)
    ensures |s| == n && forall i | 0 <= i < n :: s[i] == 'a'
  {
    seq(n, _ => 'a')
  }

  lemma {:induction false} ByteSizeAppend(a: string, b: string)
    ensures ByteSize(a + b) == ByteSize(a) + ByteSize(b)
  {
    if a == "" {
      assert a + b == b;
    } else {
      ByteSizeAppend(a[1..], b);
      assert (a + b)[1..] == a[1..] + b;
    }
  }

  lemma {:induction false} ByteSizeOfLetters(n: nat)
    ensures ByteSize(Letters(n)) == n
  {
    if n > 0 {
      assert Letters(n)[1..] == Letters(n - 1);
      ByteSizeOfLetters(n - 1);
    }
  }

  /** The longest value of a one-letter key that the scanner's buffer has room for without a carriage return. */
  const LONGEST: string := Letters(MAX_LINE - 4)

  lemma LongestLine()
    ensures PrintLine("k", Str(LONGEST)) == "k:s:" + LONGEST
    ensures ByteSize("k:s:" + LONGEST) == MAX_LINE && ByteSize("k:s:" + LONGEST + "\r") == MAX_LINE + 1
    ensures PlainValue(Str(LONGEST)) && PlainKey("k")
    ensures LONGEST != "" && LONGEST[|LONGEST| - 1] == 'a'
  {
    assert "k" + ":" + "s" + ":" == "k:s:";
    ByteSizeOfLetters(MAX_LINE - 4);
    ByteSizeAppend("k:s:", LONGEST);
    ByteSizeAppend("k:s:" + LONGEST, "\r");
  }

  lemma LinesOfOne(line: string)
    requires line != "" && '\n' !in line && ByteSize(line) <= MAX_LINE && line[|line| - 1] != '\r'
    ensures Lines(line) == [line]
  {
    assert Find(line, '\n') == |line|;
    assert line[..|line|] == line;
  }

  /** A text of one entry that is read, and whose own print is read as nothing. */
  lemma LongestLineIsLost()
    ensures var mp := map["k" := Str(LONGEST)];
            && Unmarshalled("k:s:" + LONGEST) == Ok(mp)
            && Enumerates(["k"], mp) && Printable(mp)
            && Unmarshalled(Print(["k"], mp)) == Ok(map[])
  {
    hide PrintLine, ByteSize, LONGEST, PlainValue, PlainKey, ParseLine, Lines;
    var mp := map["k" := Str(LONGEST)];
    LongestLine();
    ParsePrinted("k", Str(LONGEST));
    LinesOfOne("k:s:" + LONGEST);
    assert Collect(["k:s:" + LONGEST][1..], mp) == Ok(mp);
    var n := ReadUpTo(mp, ["k"]);
    assert n == 0;
    assert ReadAll([], mp) == map[];
  }
}
