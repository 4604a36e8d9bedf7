/** The football-data.org competition document: its records as datatypes,
    the two enums with their UNKNOWN default, and the JSON encoding of the
    Area record, which shows the three Jackson rules every record carries:
    null fields are omitted, unknown members are ignored, and decoding undoes
    encoding. Dates, instants and URIs are kept as their ISO/text form. */
module MatchPayload {
  import opened Outcomes
  import opened Json
  import JavaText

  /** Competition.CompetitionType; UNKNOWN is the @JsonEnumDefaultValue. */
  datatype CompetitionType = League | Cup | Playoffs | Unknown

  /** Competition.Stage; UNKNOWN is the @JsonEnumDefaultValue. */
  datatype Stage = RegularSeason | Unknown

  datatype Area = Area(id: int, name: Option<string>, code: Option<string>, flag: Option<string>)

  datatype Team = Team(
    id: int, name: Option<string>, shortName: Option<string>, tla: Option<string>,
    crest: Option<string>, address: Option<string>, website: Option<string>,
    founded: Option<int>, clubColors: Option<string>, venue: Option<string>,
    lastUpdated: Option<string>)

  datatype Season = Season(
    id: int, startDate: Option<string>, endDate: Option<string>,
    currentMatchday: Option<int>, winner: Option<Team>, stages: Option<seq<Stage>>)

  datatype Competition = Competition(
    area: Option<Area>, id: int, name: Option<string>, code: Option<string>,
    competitionType: Option<CompetitionType>, emblem: Option<string>,
    currentSeason: Option<Season>, seasons: Option<seq<Season>>,
    lastUpdated: Option<string>)

  // ---------- enums: written as their constant name ----------

  function CompetitionTypeName(t: CompetitionType): string {
    match t
    case League => "LEAGUE"
    case Cup => "CUP"
    case Playoffs => "PLAYOFFS"
    case Unknown => "UNKNOWN"
  }

  function StageName(s: Stage): string {
    match s
    case RegularSeason => "REGULAR_SEASON"
    case Unknown => "UNKNOWN"
  }

  /** The constant's position in its declaration (Enum.ordinal). */
  function CompetitionTypeOrdinal(t: CompetitionType): nat {
    match t
    case League => 0
    case Cup => 1
    case Playoffs => 2
    case Unknown => 3
  }

  function StageOrdinal(s: Stage): nat {
    match s
    case RegularSeason => 0
    case Unknown => 1
  }

  /** The constant an enum index selects; an index outside the declared
      constants falls back to the default UNKNOWN
      (READ_UNKNOWN_ENUM_VALUES_USING_DEFAULT_VALUE). */
  function CompetitionTypeAt(i: int): (t: CompetitionType)
    ensures 0 <= i <= 3 ==> CompetitionTypeOrdinal(t) == i
    ensures !(0 <= i <= 3) ==> t == CompetitionType.Unknown
  {
    if i == 0 then League
    else if i == 1 then Cup
    else if i == 2 then Playoffs
    else CompetitionType.Unknown
  }

  function StageAt(i: int): (st: Stage)
    ensures 0 <= i <= 1 ==> StageOrdinal(st) == i
    ensures !(0 <= i <= 1) ==> st == Stage.Unknown
  {
    if i == 0 then RegularSeason else Stage.Unknown
  }

  /** The ordinal written as one decimal digit. */
  function OrdinalText(i: nat): string
    requires i < 10
  {
    [JavaText.DigitChar(i)]
  }

  /** A quoted enum index: with FAIL_ON_NUMBERS_FOR_ENUMS off, a trimmed
      text that opens with a digit, and is not several digits opening with
      '0', is read with Integer.parseInt. A text parseInt refuses is no
      index; one beyond the int range has no constant either way. */
  function IndexOfText(name: string): (r: Option<int>)
    ensures r.Some? ==> r.value >= 0
    ensures r.Some? && r.value < 10 ==> name == OrdinalText(r.value)
  {
    if name != [] && JavaText.IsDigit(name[0]) && !(name[0] == '0' && |name| > 1) then
      var r := JavaText.ParseLong(name);
      if r.Some? && |name| > 1 then
        JavaText.DigitsValueAtLeastTen(name);
        r
      else if r.Some? then
        assert JavaText.DigitsValue(name) == JavaText.DigitValue(name[0]);
        r
      else r
    else None
  }

  /** The ordinal's digit reads back as that index. */
  lemma IndexOfOrdinalText(i: nat)
    requires i < 10
    ensures IndexOfText(OrdinalText(i)) == Some(i)
  {
    var t := OrdinalText(i);
    assert JavaText.AllDigits(t);
    assert JavaText.DigitsValue(t) == JavaText.DigitValue(t[0]) == i;
  }

  /** Reading a JSON string into CompetitionType. The text, then its
      trimmed form, is looked up among the constant names (case-sensitive);
      failing that, a quoted index selects the constant at that position;
      every other text falls back to UNKNOWN instead of failing. */
  function DecodeCompetitionType(s: string): CompetitionType {
    CompetitionTypeOfName(JavaText.Trim(s))
  }

  /** The lookup of a trimmed CompetitionType text. */
  function CompetitionTypeOfName(name: string): CompetitionType {
    if name == "LEAGUE" then League
    else if name == "CUP" then Cup
    else if name == "PLAYOFFS" then Playoffs
    else if name == "UNKNOWN" then CompetitionType.Unknown
    else
      match IndexOfText(name)
      case Some(i) => CompetitionTypeAt(i)
      case None => CompetitionType.Unknown
  }

  /** Reading a JSON string into Stage, by the same rules: "REGULAR_SEASON"
      or the index "0", blanks around either allowed, is the known stage;
      every other text, the word "null" included, is UNKNOWN. */
  function DecodeStage(s: string): Stage {
    StageOfName(JavaText.Trim(s))
  }

  /** The lookup of a trimmed Stage text. */
  function StageOfName(name: string): Stage {
    if name == "REGULAR_SEASON" then RegularSeason
    else if name == "UNKNOWN" then Stage.Unknown
    else
      match IndexOfText(name)
      case Some(i) => StageAt(i)
      case None => Stage.Unknown
  }

  /** A CompetitionType text reads as a known constant exactly when,
      trimmed, it is one of the three known names or one of their
      indexes, and then it is that constant's name or index. */
  lemma CompetitionTypeKnownTexts(s: string)
    ensures DecodeCompetitionType(s) != CompetitionType.Unknown <==>
              JavaText.Trim(s) in {"LEAGUE", "CUP", "PLAYOFFS", "0", "1", "2"}
    ensures var t := DecodeCompetitionType(s);
            t != CompetitionType.Unknown ==>
              JavaText.Trim(s) in {CompetitionTypeName(t), OrdinalText(CompetitionTypeOrdinal(t))}
  {
    LookupOfTrimmed(s, JavaText.Trim(s));
    CompetitionTypeNames(JavaText.Trim(s));
  }

  /** The trimmed texts that name a known CompetitionType. */
  lemma CompetitionTypeNames(name: string)
    ensures CompetitionTypeOfName(name) != CompetitionType.Unknown <==>
              name in {"LEAGUE", "CUP", "PLAYOFFS", "0", "1", "2"}
    ensures var t := CompetitionTypeOfName(name);
            t != CompetitionType.Unknown ==>
              name in {CompetitionTypeName(t), OrdinalText(CompetitionTypeOrdinal(t))}
  {
    var index := IndexOfText(name);
    if index.Some? && index.value < 10 {
      assert name == OrdinalText(index.value);
    }
  }

  /** A Stage text reads as REGULAR_SEASON exactly when, trimmed, it is
      that name or its index "0". */
  lemma StageKnownTexts(s: string)
    ensures DecodeStage(s) == RegularSeason <==> JavaText.Trim(s) in {"REGULAR_SEASON", "0"}
  {
    LookupOfTrimmed(s, JavaText.Trim(s));
    StageNames(JavaText.Trim(s));
  }

  /** The trimmed texts that name REGULAR_SEASON. */
  lemma StageNames(name: string)
    ensures StageOfName(name) == RegularSeason <==> name in {"REGULAR_SEASON", "0"}
  {
    var index := IndexOfText(name);
    if index.Some? && index.value < 10 {
      assert name == OrdinalText(index.value);
    }
  }

  /** Writing then reading a CompetitionType gives the constant back,
      UNKNOWN included. */
  lemma CompetitionTypeRoundTrip(t: CompetitionType)
    ensures DecodeCompetitionType(CompetitionTypeName(t)) == t
  {
    JavaText.TrimOfTrimmed(CompetitionTypeName(t));
  }

  /** Writing then reading a Stage gives the constant back. */
  lemma StageRoundTrip(st: Stage)
    ensures DecodeStage(StageName(st)) == st
  {
    JavaText.TrimOfTrimmed(StageName(st));
  }

  /** A constant's index, quoted, reads back as that constant. */
  lemma CompetitionTypeIndexRoundTrip(t: CompetitionType)
    ensures DecodeCompetitionType(OrdinalText(CompetitionTypeOrdinal(t))) == t
  {
    var i := CompetitionTypeOrdinal(t);
    DecodeTrimmed(OrdinalText(i));
    IndexOfOrdinalText(i);
    OneCharacterNamesNoConstant(OrdinalText(i));
    CompetitionTypeAtOrdinal(t);
  }

  lemma StageIndexRoundTrip(st: Stage)
    ensures DecodeStage(OrdinalText(StageOrdinal(st))) == st
  {
    var i := StageOrdinal(st);
    DecodeTrimmed(OrdinalText(i));
    IndexOfOrdinalText(i);
    OneCharacterNamesNoConstant(OrdinalText(i));
  }

  /** A text with no blanks around it is looked up as it is. */
  lemma DecodeTrimmed(s: string)
    requires JavaText.IsTrimmed(s)
    ensures DecodeCompetitionType(s) == CompetitionTypeOfName(s)
    ensures DecodeStage(s) == StageOfName(s)
  {
    JavaText.TrimOfTrimmed(s);
    LookupOfTrimmed(s, JavaText.Trim(s));
  }

  /** Decoding looks up the trimmed text. */
  lemma LookupOfTrimmed(s: string, name: string)
    requires JavaText.Trim(s) == name
    ensures DecodeCompetitionType(s) == CompetitionTypeOfName(name)
    ensures DecodeStage(s) == StageOfName(name)
  {
  }

  /** The index of a constant selects that constant. */
  lemma CompetitionTypeAtOrdinal(t: CompetitionType)
    ensures CompetitionTypeAt(CompetitionTypeOrdinal(t)) == t
  {
  }

  /** No constant has a one-character name. */
  lemma OneCharacterNamesNoConstant(name: string)
    requires |name| == 1
    ensures name != "LEAGUE" && name != "CUP" && name != "PLAYOFFS" && name != "UNKNOWN"
    ensures name != "REGULAR_SEASON"
  {
  }

  /** Blanks around an enum text never change what it reads as. */
  lemma EnumTextTrimmed(s: string)
    ensures DecodeCompetitionType(s) == DecodeCompetitionType(JavaText.Trim(s))
    ensures DecodeStage(s) == DecodeStage(JavaText.Trim(s))
  {
    JavaText.TrimIdempotent(s);
  }

  /** JsonParser.getIntValue on a number token: the value of an integer
      literal inside the int range; None for a fraction or exponent (a
      floating-point token) and for an integer the int range cannot hold. */
  function IntegerToken(literal: string): (r: Option<int>)
    ensures r.Some? ==> JavaText.IntMin <= r.value <= JavaText.IntMax
    ensures r.Some? ==> '.' !in literal && 'e' !in literal && 'E' !in literal
  {
    if '.' in literal || 'e' in literal || 'E' in literal then None
    else
      match JavaText.ParseLong(literal)
      case Some(n) => if JavaText.IntMin <= n <= JavaText.IntMax then Some(n) else None
      case None => None
  }

  /** A stage token in the document: a JSON null is an absent stage (Java
      null); a string is read by DecodeStage, so the JSON string "null" is
      the UNKNOWN stage; an integer is an index, out-of-range ones giving
      UNKNOWN; a floating-point number, a boolean, an array or an object
      cannot be read as a Stage. */
  function DecodeStageToken(v: Json): (r: Result<Option<Stage>, string>)
    ensures v == JNull <==> r == Ok(None)
    ensures v == JString("null") ==> r == Ok(Some(Stage.Unknown))
    ensures r == Ok(Some(RegularSeason)) <==>
              (v.JString? && JavaText.Trim(v.s) in {"REGULAR_SEASON", "0"})
              || (v.JNumber? && IntegerToken(v.literal) == Some(0))
    ensures r.Ok? <==> v.JNull? || v.JString? || (v.JNumber? && IntegerToken(v.literal).Some?)
  {
    match v
    case JNull => Ok(None)
    case JString(s) =>
      StageKnownTexts(s);
      Ok(Some(DecodeStage(s)))
    case JNumber(literal) =>
      (match IntegerToken(literal)
       case Some(i) => Ok(Some(StageAt(i)))
       case None => Err("Cannot deserialize value of type Stage from number " + literal))
    case _ => Err("Cannot deserialize value of type Stage")
  }

  /** An integer token is the index of the stage it reads as, and any
      integer beyond the last constant reads as UNKNOWN rather than
      failing. */
  lemma StageIndexToken(st: Stage, n: int)
    requires JavaText.IntMin <= n <= JavaText.IntMax
    ensures DecodeStageToken(JNumber(JavaText.LongToString(StageOrdinal(st)))) == Ok(Some(st))
    ensures n != 0 ==> DecodeStageToken(JNumber(JavaText.LongToString(n))) == Ok(Some(Stage.Unknown))
  {
    IntegerTokenOfLong(StageOrdinal(st));
    IntegerTokenOfLong(n);
  }

  /** The text of an int is an integer token of that value. */
  lemma IntegerTokenOfLong(n: int)
    requires JavaText.IntMin <= n <= JavaText.IntMax
    ensures IntegerToken(JavaText.LongToString(n)) == Some(n)
  {
    JavaText.ParseLongOfToString(n);
    LongTextIsInteger(n);
  }

  /** Long.toString never writes a fraction or an exponent. */
  lemma LongTextIsInteger(n: int)
    ensures var t := JavaText.LongToString(n);
            '.' !in t && 'e' !in t && 'E' !in t
  {
    var t := JavaText.LongToString(n);
    assert forall i :: 0 <= i < |t| ==> t[i] == '-' || JavaText.IsDigit(t[i]);
  }

  // ---------- Area as a JSON object ----------

  /** A nullable string field, omitted when null (JsonInclude.NON_NULL). */
  function OptionalMember(name: string, v: Option<string>): seq<(string, Json)> {
    if v.Some? then [(name, JString(v.value))] else []
  }

  /** Area written as JSON: `id` always (a primitive long), then the
      non-null string fields in declaration order. */
  function EncodeArea(a: Area): (j: Json)
    ensures j.JObject?
    ensures forall i :: 0 <= i < |j.members| ==> j.members[i].1 != JNull
  {
    JObject([("id", JNumber(JavaText.LongToString(a.id)))]
            + OptionalMember("name", a.name)
            + OptionalMember("code", a.code)
            + OptionalMember("flag", a.flag))
  }

  /** A nullable string field: absent or JSON null reads as null. */
  function ReadString(v: Option<Json>): Result<Option<string>, string> {
    match v
    case None => Ok(None)
    case Some(JNull) => Ok(None)
    case Some(JString(s)) => Ok(Some(s))
    case Some(_) => Err("Cannot deserialize value of type String")
  }

  /** A primitive long field: absent or JSON null reads as 0. */
  function ReadLong(v: Option<Json>): Result<int, string> {
    match v
    case None => Ok(0)
    case Some(JNull) => Ok(0)
    case Some(JNumber(literal)) =>
      (match JavaText.ParseLong(literal)
       case Some(n) => Ok(n)
       case None => Err("Numeric value out of range of long: " + literal))
    case Some(_) => Err("Cannot deserialize value of type long")
  }

  /** Area from the values of its four members. */
  function AreaFromMembers(id: Option<Json>, name: Option<Json>, code: Option<Json>, flag: Option<Json>): Result<Area, string> {
    match (ReadLong(id), ReadString(name), ReadString(code), ReadString(flag))
    case (Ok(i), Ok(n), Ok(c), Ok(f)) => Ok(Area(i, n, c, f))
    case _ => Err("Cannot deserialize Area")
  }

  /** Area read from JSON: the four known members are looked up and every
      other member is skipped (JsonIgnoreProperties(ignoreUnknown = true)). */
  function DecodeArea(j: Json): Result<Area, string> {
    match j
    case JObject(ms) => AreaFromMembers(Get(ms, "id"), Get(ms, "name"), Get(ms, "code"), Get(ms, "flag"))
    case _ => Err("Cannot deserialize Area from non-object")
  }

  /** An optional member never carries a name other than its own. */
  lemma GetOptionalMember(name: string, v: Option<string>, other: string)
    ensures Get(OptionalMember(name, v), other) ==
              if other == name && v.Some? then Some(JString(v.value)) else None
  {
  }

  /** The JSON value a nullable string field is written as, if written. */
  function StringMember(v: Option<string>): Option<Json> {
    if v.Some? then Some(JString(v.value)) else None
  }

  /** Looking a name up in an encoded Area: the last member of that name
      wins, and id is always there. */
  lemma GetEncodedArea(a: Area, name: string)
    ensures Get(EncodeArea(a).members, name) ==
      if name == "flag" && a.flag.Some? then StringMember(a.flag)
      else if name == "code" && a.code.Some? then StringMember(a.code)
      else if name == "name" && a.name.Some? then StringMember(a.name)
      else if name == "id" then Some(JNumber(JavaText.LongToString(a.id)))
      else None
  {
    var idm := [("id", JNumber(JavaText.LongToString(a.id)))];
    var nm := OptionalMember("name", a.name);
    var cm := OptionalMember("code", a.code);
    var fm := OptionalMember("flag", a.flag);
    assert EncodeArea(a).members == (idm + nm + cm) + fm;
    GetOptionalMember("name", a.name, name);
    GetOptionalMember("code", a.code, name);
    GetOptionalMember("flag", a.flag, name);
    GetAppend(idm + nm + cm, fm, name);
    GetAppend(idm + nm, cm, name);
    GetAppend(idm, nm, name);
  }

  /** Looking a field up in an encoded Area finds what was written for it. */
  lemma EncodedAreaGet(a: Area)
    ensures Get(EncodeArea(a).members, "flag") == StringMember(a.flag)
    ensures Get(EncodeArea(a).members, "code") == StringMember(a.code)
    ensures Get(EncodeArea(a).members, "name") == StringMember(a.name)
    ensures Get(EncodeArea(a).members, "id") == Some(JNumber(JavaText.LongToString(a.id)))
  {
    GetEncodedArea(a, "flag");
    GetEncodedArea(a, "code");
    GetEncodedArea(a, "name");
    GetEncodedArea(a, "id");
  }

  /** An object whose four known members hold what an Area writes for
      them decodes to that Area. */
  lemma DecodeAreaFromMembers(j: Json, a: Area)
    requires JavaText.LongMin <= a.id <= JavaText.LongMax
    requires j.JObject?
    requires Get(j.members, "id") == Some(JNumber(JavaText.LongToString(a.id)))
    requires Get(j.members, "name") == StringMember(a.name)
    requires Get(j.members, "code") == StringMember(a.code)
    requires Get(j.members, "flag") == StringMember(a.flag)
    ensures DecodeArea(j) == Ok(a)
  {
    JavaText.ParseLongOfToString(a.id);
    var ms := j.members;
    assert ReadLong(Get(ms, "id")) == Ok(a.id);
    ReadStringMember(a.name);
    ReadStringMember(a.code);
    ReadStringMember(a.flag);
  }

  /** A string field reads back as what was written for it. */
  lemma ReadStringMember(v: Option<string>)
    ensures ReadString(StringMember(v)) == Ok(v)
  {
  }

  /** Decoding an encoded Area gives it back, for every id in the range of
      a Java long. */
  lemma AreaRoundTrip(a: Area)
    requires JavaText.LongMin <= a.id <= JavaText.LongMax
    ensures DecodeArea(EncodeArea(a)) == Ok(a)
  {
    EncodedAreaGet(a);
    DecodeAreaFromMembers(EncodeArea(a), a);
  }

  /** Map.get on two concatenated member lists: the later list wins. */
  lemma {:induction false} GetAppend(xs: seq<(string, Json)>, ys: seq<(string, Json)>, name: string)
    ensures Get(xs + ys, name) == if Get(ys, name).Some? then Get(ys, name) else Get(xs, name)
  {
    if ys != [] {
      var zs := xs + ys;
      assert zs[|zs| - 1] == ys[|ys| - 1];
      assert zs[..|zs| - 1] == xs + ys[..|ys| - 1];
      GetAppend(xs, ys[..|ys| - 1], name);
    } else {
      assert xs + ys == xs;
    }
  }

  /** A member Area does not know, inserted anywhere in the object, does not
      change what is decoded. */
  lemma AreaIgnoresUnknownMember(ms: seq<(string, Json)>, k: nat, extra: (string, Json))
    requires k <= |ms|
    requires extra.0 !in {"id", "name", "code", "flag"}
    ensures DecodeArea(JObject(ms[..k] + [extra] + ms[k..])) == DecodeArea(JObject(ms))
  {
    GetIgnoresOtherMember(ms, k, extra, "id");
    GetIgnoresOtherMember(ms, k, extra, "name");
    GetIgnoresOtherMember(ms, k, extra, "code");
    GetIgnoresOtherMember(ms, k, extra, "flag");
  }
}
