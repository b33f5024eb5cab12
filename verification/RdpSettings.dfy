/** The settings builder: it prints only what differs from the defaults, or is forced, and reading fills the
    defaults back in. A schema lists the fields with their names, tags, kinds and default texts. */
module RdpSettings {
  import opened RdpText

  datatype Kind = TextKind | IntKind | BoolKind

  datatype Field = Field(name: string, tag: string, kind: Kind, default: string)

  function ZeroOf(kind: Kind): Value {
    match kind
    case TextKind => Str("")
    case IntKind => Int(0)
    case BoolKind => Bool(false)
  }

  /** The value a default text stands for; none for an integer field whose default is no integer. */
  function ValueOfText(kind: Kind, t: string): Result<Value> {
    match kind
    case TextKind => Ok(Str(t))
    case IntKind => (match Atoi(t) case Ok(i) => Ok(Int(i)) case Malformed => Malformed)
    case BoolKind => Ok(Bool(t == "true" || t == "1"))
  }

  predicate HasDefault(f: Field) {
    f.default != "" ==> ValueOfText(f.kind, f.default).Ok?
  }

  /** What a field holds before a file is read: its default, or Go's zero value without one. */
  function DefaultOf(f: Field): Value
    requires HasDefault(f)
  {
    if f.default == "" then ZeroOf(f.kind) else ValueOfText(f.kind, f.default).value
  }

  predicate OfKind(v: Value, kind: Kind) {
    match kind
    case TextKind => v.Str?
    case IntKind => v.Int?
    case BoolKind => v.Bool?
  }

  /** The printer's own test for leaving a field out. */
  function IsZero(f: Field, v: Value): (zero: bool)
    requires HasDefault(f) && OfKind(v, f.kind)
    ensures zero <==> v == DefaultOf(f)
  {
    if f.default == "" then v == ZeroOf(f.kind)
    else
      match f.kind
      case TextKind => v.s == f.default
      case IntKind => v.i == Atoi(f.default).value
      case BoolKind => v.b == (f.default == "true" || f.default == "1")
  }

  /** Defaults as texts: a number, "true" or "1", or the text itself; without one the zero value. A read number
      sets a switch unless it is zero. */
  lemma DefaultsMeaning(name: string, tag: string, i: int, t: string)
    requires IsInt64(i)
    ensures ValueOfText(IntKind, Itoa(i)) == Ok(Int(i))
    ensures DefaultOf(Field(name, tag, TextKind, t)) == Str(t)
    ensures DefaultOf(Field(name, tag, BoolKind, "true")) == DefaultOf(Field(name, tag, BoolKind, "1")) == Bool(true)
    ensures DefaultOf(Field(name, tag, BoolKind, "false")) == DefaultOf(Field(name, tag, BoolKind, "")) == Bool(false)
    ensures HasDefault(Field(name, tag, IntKind, Itoa(i))) && DefaultOf(Field(name, tag, IntKind, Itoa(i))) == Int(i)
    ensures DefaultOf(Field(name, tag, IntKind, "")) == Int(0)
    ensures Assigned(BoolKind, Int(i)) == Bool(i != 0)
  {
    hide Atoi, Itoa;
    AtoiUndoesItoa(i);
  }

  predicate GoodSchema(schema: seq<Field>) {
    && (forall f | f in schema :: HasDefault(f) && PlainKey(f.tag))
    && (forall i, j | 0 <= i < j < |schema| :: schema[i].tag != schema[j].tag)
  }

  /** Values of the schema's kinds. */
  predicate Typed(schema: seq<Field>, values: seq<Value>) {
    && |values| == |schema|
    && forall i | 0 <= i < |schema| :: HasDefault(schema[i]) && OfKind(values[i], schema[i].kind)
  }

  /** Values of the schema's kinds: 64-bit integers, trimmed strings without newlines. */
  predicate GoodValues(schema: seq<Field>, values: seq<Value>) {
    && |values| == |schema|
    && forall i | 0 <= i < |schema| ::
         OfKind(values[i], schema[i].kind) && PlainValue(values[i])
  }

  lemma GoodIsTyped(schema: seq<Field>, values: seq<Value>)
    requires GoodSchema(schema) && GoodValues(schema, values)
    ensures Typed(schema, values)
  {
    hide PlainKey, PlainValue, LineFits;
    assert forall i | 0 <= i < |schema| :: schema[i] in schema;
  }

  predicate Shown(f: Field, v: Value, forced: set<string>)
    requires HasDefault(f) && OfKind(v, f.kind)
  {
    !IsZero(f, v) || f.name in forced
  }

  /** Builder.String: the shown fields' lines in the schema's order. */
  function BuilderText(schema: seq<Field>, values: seq<Value>, forced: set<string>): string
    requires Typed(schema, values)
    decreases |schema|
  {
    if schema == [] then ""
    else
      (if Shown(schema[0], values[0], forced) then PrintLine(schema[0].tag, values[0]) + "\r\n" else "")
      + BuilderText(schema[1..], values[1..], forced)
  }

  method BuilderString(schema: seq<Field>, values: seq<Value>, forced: set<string>) returns (sb: string)
    requires Typed(schema, values)
    ensures sb == BuilderText(schema, values, forced)
  {
    hide PrintLine, IsZero;
    sb := "";
    var i := 0;
    assert schema[0..] == schema && values[0..] == values;
    while i < |schema|
      invariant 0 <= i <= |schema|
      invariant Typed(schema[i..], values[i..])
      invariant sb + BuilderText(schema[i..], values[i..], forced) == BuilderText(schema, values, forced)
    {
      var f, v := schema[i], values[i];
      assert schema[i..][1..] == schema[i + 1..] && values[i..][1..] == values[i + 1..];
      if !(IsZero(f, v) && f.name !in forced) {
        ghost var later := BuilderText(schema[i + 1..], values[i + 1..], forced);
        assert sb + (PrintLine(f.tag, v) + "\r\n" + later) == sb + PrintLine(f.tag, v) + "\r\n" + later;
        sb := sb + PrintLine(f.tag, v) + "\r\n";
      } else {
        assert "" + BuilderText(schema[i + 1..], values[i + 1..], forced)
            == BuilderText(schema[i + 1..], values[i + 1..], forced);
      }
      i := i + 1;
    }
    assert sb + "" == sb;
  }

  /** A parsed entry assigned to a field of some kind. */
  function Assigned(kind: Kind, v: Value): Value {
    if kind.BoolKind? && v.Int? then Bool(v.i != 0) else v
  }

  /** NewBuilderFromFile, for one field: the entry of its tag, or its default. */
  function LoadedField(f: Field, mp: Settings): Value
    requires HasDefault(f)
  {
    if f.tag in mp then Assigned(f.kind, mp[f.tag]) else DefaultOf(f)
  }

  function LoadedValues(schema: seq<Field>, mp: Settings): (values: seq<Value>)
    requires forall f | f in schema :: HasDefault(f)
    ensures |values| == |schema|
    ensures forall i | 0 <= i < |schema| :: values[i] == LoadedField(schema[i], mp)
  {
    seq(|schema|, i requires 0 <= i < |schema| => LoadedField(schema[i], mp))
  }

  // ---- printing is a print of the shown fields ----

  function ShownTags(schema: seq<Field>, values: seq<Value>, forced: set<string>): (tags: seq<string>)
    requires GoodSchema(schema) && GoodValues(schema, values)
    ensures forall t | t in tags :: exists f | f in schema :: f.tag == t
    decreases |schema|
  {
    if schema == [] then []
    else
      assert schema[0] in schema;
      var later := ShownTags(schema[1..], values[1..], forced);
      assert forall f | f in schema[1..] :: f in schema;
      (if Shown(schema[0], values[0], forced) then [schema[0].tag] else []) + later
  }

  function AllOf(schema: seq<Field>, values: seq<Value>): Settings
    requires GoodSchema(schema) && |values| == |schema|
  {
    map i | 0 <= i < |schema| :: schema[i].tag := values[i]
  }

  lemma {:induction false} ShownTagsMeaning(schema: seq<Field>, values: seq<Value>, forced: set<string>)
    requires GoodSchema(schema) && GoodValues(schema, values)
    ensures Distinct(ShownTags(schema, values, forced))
    ensures forall i | 0 <= i < |schema| ::
              && HasDefault(schema[i])
              && (schema[i].tag in ShownTags(schema, values, forced) <==> Shown(schema[i], values[i], forced))
    decreases |schema|
  {
    hide IsZero, PlainValue, LineFits, PlainKey, Shown;
    if schema != [] {
      assert schema[0] in schema;
      var later := ShownTags(schema[1..], values[1..], forced);
      ShownTagsMeaning(schema[1..], values[1..], forced);
      assert schema[0].tag !in later;
      forall i | 0 <= i < |schema|
        ensures HasDefault(schema[i])
        ensures schema[i].tag in ShownTags(schema, values, forced) <==> Shown(schema[i], values[i], forced)
      {
        assert schema[i] in schema;
        if i > 0 {
          assert schema[i] == schema[1..][i - 1] && values[i] == values[1..][i - 1];
        }
      }
    }
  }

  predicate HoldsAll(schema: seq<Field>, values: seq<Value>, mp: Settings)
    requires |values| == |schema|
  {
    forall i | 0 <= i < |schema| :: schema[i].tag in mp && mp[schema[i].tag] == values[i]
  }

  lemma {:induction false} BuilderTextIsPrint(schema: seq<Field>, values: seq<Value>, forced: set<string>, mp: Settings)
    requires GoodSchema(schema) && GoodValues(schema, values)
    requires HoldsAll(schema, values, mp)
    requires Printable(mp)
    ensures Typed(schema, values)
    ensures forall t | t in ShownTags(schema, values, forced) :: t in mp
    ensures BuilderText(schema, values, forced) == Print(ShownTags(schema, values, forced), mp)
    decreases |schema|
  {
    hide PrintLine, IsZero, PlainValue, LineFits, PlainKey;
    GoodIsTyped(schema, values);
    if schema != [] {
      assert schema[0] in schema;
      forall i | 0 <= i < |schema[1..]| ensures schema[1..][i].tag in mp && mp[schema[1..][i].tag] == values[1..][i] {
        assert schema[1..][i] == schema[i + 1];
      }
      BuilderTextIsPrint(schema[1..], values[1..], forced, mp);
      var tags, later := ShownTags(schema, values, forced), ShownTags(schema[1..], values[1..], forced);
      if Shown(schema[0], values[0], forced) {
        assert tags[0] == schema[0].tag && tags[1..] == later;
      } else {
        assert tags == later;
        assert "" + Print(later, mp) == Print(later, mp);
      }
    }
  }

  lemma AllOfIsPlain(schema: seq<Field>, values: seq<Value>)
    requires GoodSchema(schema) && GoodValues(schema, values)
    ensures PlainSettings(AllOf(schema, values))
    ensures forall i | 0 <= i < |schema| ::
              schema[i].tag in AllOf(schema, values) && AllOf(schema, values)[schema[i].tag] == values[i]
  {
    hide PlainKey, PlainValue, LineFits;
    forall t | t in AllOf(schema, values) ensures PlainKey(t) && PlainValue(AllOf(schema, values)[t]) {
      var i :| 0 <= i < |schema| && schema[i].tag == t;
      assert schema[i] in schema;
    }
  }

  lemma AssignedUndoesReadAs(kind: Kind, v: Value)
    requires OfKind(v, kind)
    ensures Assigned(kind, ReadAs(v)) == v
  {
  }

  // ---- reading a builder's text ----

  /** The lines shown up to field `i`, its own included, all fit the scanner's buffer. */
  predicate ReadableUpTo(schema: seq<Field>, values: seq<Value>, forced: set<string>, i: nat)
    requires Typed(schema, values) && i < |schema|
  {
    forall k | 0 <= k <= i && Shown(schema[k], values[k], forced) ::
      !values[k].Other? && LineFits(schema[k].tag, values[k])
  }

  predicate FirstFits(schema: seq<Field>, values: seq<Value>, forced: set<string>)
    requires Typed(schema, values) && schema != []
  {
    Shown(schema[0], values[0], forced) ==> !values[0].Other? && LineFits(schema[0].tag, values[0])
  }

  lemma ReadableFromFirst(schema: seq<Field>, values: seq<Value>, forced: set<string>, i: nat)
    requires Typed(schema, values) && i < |schema|
    ensures Typed(schema[1..], values[1..])
    ensures ReadableUpTo(schema, values, forced, i)
       <==> FirstFits(schema, values, forced) && (i > 0 ==> ReadableUpTo(schema[1..], values[1..], forced, i - 1))
  {
    hide Shown, LineFits;
    if i > 0 && FirstFits(schema, values, forced) {
      var s, v := schema[1..], values[1..];
      assert forall k | 0 < k < |schema| :: schema[k] == s[k - 1] && values[k] == v[k - 1];
      if ReadableUpTo(s, v, forced, i - 1) {
        forall k | 0 <= k <= i && Shown(schema[k], values[k], forced)
          ensures !values[k].Other? && LineFits(schema[k].tag, values[k])
        {
          if k > 0 { assert Shown(s[k - 1], v[k - 1], forced); }
        }
      }
      if ReadableUpTo(schema, values, forced, i) {
        forall k | 0 <= k <= i - 1 && Shown(s[k], v[k], forced) ensures !v[k].Other? && LineFits(s[k].tag, v[k]) {
          assert Shown(schema[k + 1], values[k + 1], forced);
        }
      }
    }
  }

  /** The fields whose lines are among the first `n`, where line `n` is the first that does not fit. */
  ghost predicate ReadTags(schema: seq<Field>, values: seq<Value>, forced: set<string>, read: seq<string>)
    requires Typed(schema, values)
  {
    forall i | 0 <= i < |schema| ::
      schema[i].tag in read <==> Shown(schema[i], values[i], forced) && ReadableUpTo(schema, values, forced, i)
  }

  /** `n` lines fit, and if there are more the next does not. */
  predicate FitUpTo(tags: seq<string>, mp: Settings, n: nat) {
    && n <= |tags|
    && (forall t | t in tags :: t in mp && !mp[t].Other?)
    && (forall k | 0 <= k < n :: LineFits(tags[k], mp[tags[k]]))
    && (n < |tags| ==> !LineFits(tags[n], mp[tags[n]]))
  }

  /** What is read of the fields after the first decides what is read of all. */
  lemma ReadTagsFromLater(schema: seq<Field>, values: seq<Value>, forced: set<string>, later: seq<string>)
    requires Typed(schema, values) && schema != []
    requires forall i, j | 0 <= i < j < |schema| :: schema[i].tag != schema[j].tag
    requires Typed(schema[1..], values[1..]) && ReadTags(schema[1..], values[1..], forced, later)
    requires schema[0].tag !in later
    ensures !Shown(schema[0], values[0], forced) ==> ReadTags(schema, values, forced, later)
    ensures Shown(schema[0], values[0], forced) && FirstFits(schema, values, forced)
            ==> ReadTags(schema, values, forced, [schema[0].tag] + later)
    ensures !FirstFits(schema, values, forced) ==> ReadTags(schema, values, forced, [])
  {
    hide Shown, LineFits, ReadableUpTo;
    forall i: nat | i < |schema|
      ensures i > 0 ==> (schema[i].tag in later
                         <==> Shown(schema[i], values[i], forced)
                              && ReadableUpTo(schema[1..], values[1..], forced, i - 1))
      ensures ReadableUpTo(schema, values, forced, i)
         <==> FirstFits(schema, values, forced) && (i > 0 ==> ReadableUpTo(schema[1..], values[1..], forced, i - 1))
    {
      ReadableFromFirst(schema, values, forced, i);
      if i > 0 {
        assert schema[i] == schema[1..][i - 1] && values[i] == values[1..][i - 1];
      }
    }
  }

  /** The first field's line, if it is shown, and the others'. */
  lemma {:induction false} TagsFromFirst(schema: seq<Field>, values: seq<Value>, forced: set<string>)
    requires GoodSchema(schema) && GoodValues(schema, values) && Typed(schema, values) && schema != []
    ensures GoodSchema(schema[1..]) && GoodValues(schema[1..], values[1..]) && Typed(schema[1..], values[1..])
    ensures var later := ShownTags(schema[1..], values[1..], forced);
            && schema[0].tag !in later
            && ShownTags(schema, values, forced)
            == if Shown(schema[0], values[0], forced) then [schema[0].tag] + later else later
  {
    hide Shown, PlainKey, PlainValue;
    var later := ShownTags(schema[1..], values[1..], forced);
    assert forall f | f in schema[1..] :: f in schema && f.tag != schema[0].tag;
    assert [] + later == later;
  }

  lemma {:induction false} TagsRead(schema: seq<Field>, values: seq<Value>, forced: set<string>, mp: Settings, n: nat)
    requires GoodSchema(schema) && GoodValues(schema, values) && Typed(schema, values)
    requires HoldsAll(schema, values, mp)
    requires FitUpTo(ShownTags(schema, values, forced), mp, n)
    ensures ReadTags(schema, values, forced, ShownTags(schema, values, forced)[..n])
    decreases |schema|
  {
    hide Shown, ReadTags, ShownTags, GoodSchema, GoodValues, HoldsAll, FitUpTo, FirstFits;
    FitsMeans(ShownTags(schema, values, forced), mp, n);
    if schema == [] {
      NothingToShow(schema, values, forced);
    } else {
      TagsFromFirst(schema, values, forced);
      FirstHeld(schema, values, forced, mp);
      TagsDiffer(schema);
      var s, v := schema[1..], values[1..];
      var tags, later := ShownTags(schema, values, forced), ShownTags(s, v, forced);
      if !Shown(schema[0], values[0], forced) {
        TagsRead(s, v, forced, mp, n);
        ReadTagsFromLater(schema, values, forced, later[..n]);
      } else {
        var m := FitAfterFirst(tags, later, mp, n);
        TagsRead(s, v, forced, mp, m);
        ReadTagsFromLater(schema, values, forced, later[..m]);
        assert n == 0 ==> tags[..n] == [];
      }
    }
  }

  lemma FirstHeld(schema: seq<Field>, values: seq<Value>, forced: set<string>, mp: Settings)
    requires Typed(schema, values) && HoldsAll(schema, values, mp) && schema != [] && Typed(schema[1..], values[1..])
    ensures HoldsAll(schema[1..], values[1..], mp)
    ensures schema[0].tag in mp
    ensures FirstFits(schema, values, forced)
       <==> (Shown(schema[0], values[0], forced) ==>
               !mp[schema[0].tag].Other? && LineFits(schema[0].tag, mp[schema[0].tag]))
  {
    hide Shown, LineFits;
    assert forall k | 0 < k < |schema| :: schema[k] == schema[1..][k - 1] && values[k] == values[1..][k - 1];
  }

  lemma TagsDiffer(schema: seq<Field>)
    requires GoodSchema(schema)
    ensures forall i, j | 0 <= i < j < |schema| :: schema[i].tag != schema[j].tag
  {
  }

  lemma FitsMeans(tags: seq<string>, mp: Settings, n: nat)
    requires FitUpTo(tags, mp, n)
    ensures n <= |tags|
  {
  }

  /** Which of the later lines are read, or would be without the first. */
  lemma {:induction false} FitAfterFirst(tags: seq<string>, later: seq<string>, mp: Settings, n: nat) returns (m: nat)
    requires FitUpTo(tags, mp, n) && tags != [] && tags == [tags[0]] + later
    ensures FitUpTo(later, mp, m) && m <= |later|
    ensures n > 0 ==> m == n - 1 && tags[..n] == [tags[0]] + later[..m]
    ensures tags[0] in mp && !mp[tags[0]].Other? && (n > 0 <==> LineFits(tags[0], mp[tags[0]]))
  {
    hide LineFits;
    assert forall k | 0 <= k < |later| :: later[k] == tags[k + 1];
    assert forall t | t in later :: t in tags;
    m := if n > 0 then n - 1 else LinesThatFit(later, mp);
  }

  lemma NothingToShow(schema: seq<Field>, values: seq<Value>, forced: set<string>)
    requires GoodSchema(schema) && GoodValues(schema, values) && Typed(schema, values) && schema == []
    ensures ShownTags(schema, values, forced) == [] && ReadTags(schema, values, forced, [])
  {
  }

  /** How many lines fit before the first that does not. */
  function LinesThatFit(tags: seq<string>, mp: Settings): (n: nat)
    requires forall t | t in tags :: t in mp && !mp[t].Other?
    ensures FitUpTo(tags, mp, n)
  {
    if tags == [] || !LineFits(tags[0], mp[tags[0]]) then 0
    else
      var n := LinesThatFit(tags[1..], mp);
      assert forall k | 0 < k < |tags| :: tags[k] == tags[1..][k - 1];
      n + 1
  }

  /** Reading a builder's text into the same schema gives back the same settings if and only if every field that
      differs from its default comes before the first shown line that does not fit the scanner's buffer; that
      line and all after it are lost. What is forced always has its line. */
  lemma SettingsRoundTrip(schema: seq<Field>, values: seq<Value>, forced: set<string>)
    requires GoodSchema(schema) && GoodValues(schema, values)
    ensures Typed(schema, values)
    ensures var parsed := Unmarshalled(BuilderText(schema, values, forced));
            && parsed.Ok?
            && (forall f | f in schema :: HasDefault(f))
            && (forall i | 0 <= i < |schema| ::
                  schema[i].tag in parsed.value
                  <==> Shown(schema[i], values[i], forced) && ReadableUpTo(schema, values, forced, i))
            && (forall i | 0 <= i < |schema| && schema[i].tag in parsed.value ::
                  parsed.value[schema[i].tag] == ReadAs(values[i]))
            && (LoadedValues(schema, parsed.value) == values
                <==> forall i | 0 <= i < |schema| && values[i] != DefaultOf(schema[i]) ::
                       ReadableUpTo(schema, values, forced, i))
  {
    hide PlainValue, PlainKey, Unmarshalled, BuilderText, LineFits, ReadAs, PrintLine, LoadedField, ReadAll, ShownTags,
         ReadableUpTo, AllOf;
    var mp, tags := AllOf(schema, values), ShownTags(schema, values, forced);
    GoodIsTyped(schema, values);
    AllOfIsPlain(schema, values);
    PlainIsPrintable(mp);
    BuilderTextIsPrint(schema, values, forced, mp);
    ShownTagsMeaning(schema, values, forced);
    var n := ReadUpTo(mp, tags);
    assert FitUpTo(tags, mp, n);
    TagsRead(schema, values, forced, mp, n);
    LoadedFromRead(schema, values, forced, mp, tags[..n]);
  }

  /** What is read comes back, what is not is its default. */
  lemma LoadedFromRead(schema: seq<Field>, values: seq<Value>, forced: set<string>, mp: Settings, read: seq<string>)
    requires GoodSchema(schema) && GoodValues(schema, values) && Typed(schema, values)
    requires HoldsAll(schema, values, mp)
    requires forall t | t in read :: t in mp
    requires ReadTags(schema, values, forced, read)
    ensures forall f | f in schema :: HasDefault(f)
    ensures var parsed := ReadAll(read, mp);
            && (forall i | 0 <= i < |schema| && schema[i].tag in parsed :: parsed[schema[i].tag] == ReadAs(values[i]))
            && (forall t :: t in parsed <==> t in read)
            && (LoadedValues(schema, parsed) == values
                <==> forall i | 0 <= i < |schema| && values[i] != DefaultOf(schema[i]) ::
                       ReadableUpTo(schema, values, forced, i))
  {
    hide PlainValue, PlainKey, ReadAs, ReadableUpTo;
    var parsed := ReadAll(read, mp);
    forall i: nat | i < |schema|
      ensures HasDefault(schema[i])
      ensures LoadedField(schema[i], parsed) == values[i]
         <==> values[i] == DefaultOf(schema[i]) || ReadableUpTo(schema, values, forced, i)
    {
      assert schema[i] in schema;
      AssignedUndoesReadAs(schema[i].kind, values[i]);
    }
    assert LoadedValues(schema, parsed) == values
        <==> forall i | 0 <= i < |schema| :: LoadedField(schema[i], parsed) == values[i];
  }

  /** Forcing more fields changes nothing that is loaded, if their lines fit. */
  lemma ForcingChangesNothing(schema: seq<Field>, values: seq<Value>, forced: set<string>, more: set<string>)
    requires GoodSchema(schema) && GoodValues(schema, values) && forced <= more
    requires forall i | 0 <= i < |schema| && schema[i].name in more ::
               !values[i].Other? && LineFits(schema[i].tag, values[i])
    ensures Typed(schema, values) && forall f | f in schema :: HasDefault(f)
    ensures var less, parsed := Unmarshalled(BuilderText(schema, values, forced)),
                                Unmarshalled(BuilderText(schema, values, more));
            && less.Ok? && parsed.Ok?
            && (LoadedValues(schema, less.value) == values ==> LoadedValues(schema, parsed.value) == values)
  {
    hide GoodSchema, GoodValues, Unmarshalled, BuilderText, LoadedValues, LineFits, IsZero;
    SettingsRoundTrip(schema, values, forced);
    SettingsRoundTrip(schema, values, more);
    forall i: nat | i < |schema| && ReadableUpTo(schema, values, forced, i)
      ensures ReadableUpTo(schema, values, more, i)
    {
    }
  }

  /** A forced field has its line, whatever it holds. */
  lemma ForcedIsPrinted(schema: seq<Field>, values: seq<Value>, forced: set<string>, i: nat)
    requires GoodSchema(schema) && GoodValues(schema, values)
    requires i < |schema| && schema[i].name in forced
    ensures Typed(schema, values) && !values[i].Other?
    ensures exists before, after ::
              BuilderText(schema, values, forced) == before + PrintLine(schema[i].tag, values[i]) + "\r\n" + after
  {
    hide PrintLine, PlainKey;
    GoodIsTyped(schema, values);
    LineOfField(schema, values, forced, i);
  }

  lemma {:induction false} LineOfField(schema: seq<Field>, values: seq<Value>, forced: set<string>, i: nat)
    requires Typed(schema, values) && i < |schema| && Shown(schema[i], values[i], forced) && !values[i].Other?
    ensures exists before, after ::
              BuilderText(schema, values, forced) == before + PrintLine(schema[i].tag, values[i]) + "\r\n" + after
    decreases |schema|
  {
    hide PrintLine, Shown;
    var first := if Shown(schema[0], values[0], forced) then PrintLine(schema[0].tag, values[0]) + "\r\n" else "";
    var later := BuilderText(schema[1..], values[1..], forced);
    assert BuilderText(schema, values, forced) == first + later;
    var line := PrintLine(schema[i].tag, values[i]);
    if i == 0 {
      assert first + later == "" + line + "\r\n" + later;
    } else {
      assert schema[1..][i - 1] == schema[i] && values[1..][i - 1] == values[i];
      LineOfField(schema[1..], values[1..], forced, i - 1);
      var before, after :| later == before + line + "\r\n" + after;
      assert first + later == (first + before) + line + "\r\n" + after;
    }
  }

  /** A value whose line does not fit is lost when read back, and the field after it with it. */
  lemma LongSettingIsLost()
    ensures var schema := [Field("K", "k", TextKind, ""), Field("M", "m", IntKind, "")];
            var values := [Str(LONGEST), Int(5)];
            && GoodSchema(schema) && GoodValues(schema, values) && Typed(schema, values)
            && var parsed := Unmarshalled(BuilderText(schema, values, {}));
               && parsed.Ok? && (forall f | f in schema :: HasDefault(f))
               && LoadedValues(schema, parsed.value) == [Str(""), Int(0)]
  {
    hide LONGEST, LineFits, Unmarshalled, BuilderText;
    var schema := [Field("K", "k", TextKind, ""), Field("M", "m", IntKind, "")];
    var values := [Str(LONGEST), Int(5)];
    LongestDoesNotFit();
    SettingsRoundTrip(schema, values, {});
    assert Shown(schema[0], values[0], {}) && Shown(schema[1], values[1], {});
    assert !ReadableUpTo(schema, values, {}, 0) && !ReadableUpTo(schema, values, {}, 1);
  }

  lemma LongestDoesNotFit()
    ensures !LineFits("k", Str(LONGEST)) && PlainValue(Str(LONGEST)) && LONGEST != ""
  {
    hide LONGEST, ByteSize, PlainValue;
    LongestLine();
    assert PrintLine("k", Str(LONGEST)) + "\r" == "k:s:" + LONGEST + "\r";
  }
}
