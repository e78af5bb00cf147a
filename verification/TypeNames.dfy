/** `trino_type_to_pg`: Trino type names, however nested, to PostgreSQL types. */
module TypeNames {
  import opened Options
  import opened Texts

  datatype PgType =
    | BOOL | INT2 | INT4 | INT8 | FLOAT4 | FLOAT8 | NUMERIC | VARCHAR | BPCHAR | BYTEA | DATE | TIME | TIMETZ
    | TIMESTAMP | TIMESTAMPTZ | INTERVAL | JSONB | UUID | INET | TEXT
    | ArrayOf(elem: PgType)

  function ScalarToArray(t: PgType): PgType {
    if t.ArrayOf? then ArrayOf(TEXT) else ArrayOf(t)
  }

  /** Base names and their types, grouped by length; anything else is text. */
  function BaseToPg(s: string): PgType {
    if |s| <= 4 then ShortBase(s)
    else if |s| <= 8 then MediumBase(s)
    else LongBase(s)
  }

  function ShortBase(s: string): PgType {
    if s == "map" || s == "row" then JSONB
    else if s == "real" then FLOAT4
    else if s == "char" then BPCHAR
    else if s == "date" then DATE
    else if s == "time" then TIME
    else if s == "json" then JSONB
    else if s == "uuid" then UUID
    else TEXT
  }

  function MediumBase(s: string): PgType {
    if s == "boolean" then BOOL
    else if s == "tinyint" || s == "smallint" then INT2
    else if s == "integer" then INT4
    else if s == "bigint" then INT8
    else if s == "double" then FLOAT8
    else if s == "decimal" then NUMERIC
    else if s == "varchar" then VARCHAR
    else if s == "interval" then INTERVAL
    else TEXT
  }

  function LongBase(s: string): PgType {
    if |s| == 9 then
      if s == "varbinary" then BYTEA
      else if s == "timestamp" then TIMESTAMP
      else if s == "ipaddress" then INET
      else TEXT
    else if |s| == 19 && s == "time with time zone" then TIMETZ
    else if |s| == 24 && s == "timestamp with time zone" then TIMESTAMPTZ
    else if |s| == 22 && (s == "interval year to month" || s == "interval day to second") then INTERVAL
    else TEXT
  }

  /** Removes the span from the first `(` to the last `)`. */
  function Stripped(s: string): string {
    var open, close := FirstOf(s, '(', 0), LastBefore(s, ')', |s|);
    if open < |s| && close > open + 1 then Trim(s[..open] + s[close..]) else Trim(s)
  }

  /** `strip_type_params` as it builds its result; `close` is one past the bracket. */
  method StripTypeParams(normalized: string) returns (base: string)
    ensures base == Stripped(normalized)
  {
    var open: nat := 0;
    while open < |normalized| && normalized[open] != '('
      invariant open <= |normalized| && FirstOf(normalized, '(', 0) == FirstOf(normalized, '(', open)
    {
      open := open + 1;
    }
    var close: nat := |normalized|;
    while close > 0 && normalized[close - 1] != ')'
      invariant close <= |normalized| && LastBefore(normalized, ')', |normalized|) == LastBefore(normalized, ')', close)
    {
      close := close - 1;
    }
    if open < |normalized| && close > open + 1 {
      base := "";
      base := base + normalized[..open];
      base := base + normalized[close..];
      assert base == normalized[..open] + normalized[close..];
      base := Trim(base);
    } else {
      base := Trim(normalized);
    }
  }

  /** The text between `array(` and `)`. */
  function ElementName(n: string): (x: Option<string>)
    ensures x.Some? ==> |x.value| < |n|
  {
    if StartsWith(n, "array(") && EndsWith(n, ")") && |n| >= 7 then Some(n[6..|n| - 1]) else None
  }

  /** The recursion is on the length of the name. */
  function TrinoTypeToPg(name: string): PgType
    decreases |name|
  {
    var n := Lower(Trim(name));
    match ElementName(n)
    case Some(inner) => ScalarToArray(TrinoTypeToPg(inner))
    case None => BaseToPg(Stripped(n))
  }

  // ---------------------------------------------------------------- type trees

  datatype Kind =
    | KBoolean | KTinyint | KSmallint | KInteger | KBigint | KReal | KDouble | KDecimal | KVarchar | KChar | KVarbinary
    | KDate | KTime | KTimeTz | KTimestamp | KTimestampTz | KInterval | KIntervalYear | KIntervalDay | KJson | KUuid | KIpAddress

  function NameOf(k: Kind): string {
    match k
    case KBoolean => "boolean"
    case KTinyint => "tinyint"
    case KSmallint => "smallint"
    case KInteger => "integer"
    case KBigint => "bigint"
    case KReal => "real"
    case KDouble => "double"
    case KDecimal => "decimal"
    case KVarchar => "varchar"
    case KChar => "char"
    case KVarbinary => "varbinary"
    case KDate => "date"
    case KTime => "time"
    case KTimeTz => "time with time zone"
    case KTimestamp => "timestamp"
    case KTimestampTz => "timestamp with time zone"
    case KInterval => "interval"
    case KIntervalYear => "interval year to month"
    case KIntervalDay => "interval day to second"
    case KJson => "json"
    case KUuid => "uuid"
    case KIpAddress => "ipaddress"
  }

  function PgOfKind(k: Kind): PgType {
    match k
    case KBoolean => BOOL
    case KTinyint => INT2
    case KSmallint => INT2
    case KInteger => INT4
    case KBigint => INT8
    case KReal => FLOAT4
    case KDouble => FLOAT8
    case KDecimal => NUMERIC
    case KVarchar => VARCHAR
    case KChar => BPCHAR
    case KVarbinary => BYTEA
    case KDate => DATE
    case KTime => TIME
    case KTimeTz => TIMETZ
    case KTimestamp => TIMESTAMP
    case KTimestampTz => TIMESTAMPTZ
    case KInterval => INTERVAL
    case KIntervalYear => INTERVAL
    case KIntervalDay => INTERVAL
    case KJson => JSONB
    case KUuid => UUID
    case KIpAddress => INET
  }

  /**
    Trino types: plain and parametrised scalars, precision in the middle of a zoned name, types
    the gateway does not know, arrays, maps and rows. Field names are arbitrary text.
   */
  datatype TrinoType =
    | Scalar(kind: Kind)
    | Parametrised(kind: Kind, params: string)
    | ZonedTime(params: string)
    | ZonedTimestamp(params: string)
    | Unknown(name: string, detail: Option<string>)
    | ArrayType(elem: TrinoType)
    | MapType(key: TrinoType, value: TrinoType)
    | RowType(fields: seq<Field>)

  datatype Field = Field(name: string, ty: TrinoType)

  predicate Plain(s: string) { Trimmed(s) && Lower(s) == s && forall i :: 0 <= i < |s| ==> s[i] != '(' && s[i] != ')' }

  /** The name of a scalar, or of maps or rows. */
  ghost predicate KnownName(n: string) { n == "map" || n == "row" || exists k :: n == NameOf(k) }

  ghost predicate WellFormed(t: TrinoType) {
    match t
    case Parametrised(k, _) => k != KTimeTz && k != KTimestampTz && k != KIntervalYear && k != KIntervalDay
    case Unknown(n, p) => Plain(n) && !KnownName(n) && (p.Some? ==> n != "" && n != "array")
    case ArrayType(e) => WellFormed(e)
    case MapType(k, v) => WellFormed(k) && WellFormed(v)
    case RowType(fs) => forall i :: 0 <= i < |fs| ==> WellFormed(fs[i].ty)
    case _ => true
  }

  /** The name Trino prints. */
  function Print(t: TrinoType): string
    decreases t
  {
    match t
    case Scalar(k) => NameOf(k)
    case Parametrised(k, p) => NameOf(k) + ("(" + p + ")")
    case ZonedTime(p) => NameOf(KTime) + ("(" + p + ")") + " with time zone"
    case ZonedTimestamp(p) => NameOf(KTimestamp) + ("(" + p + ")") + " with time zone"
    case Unknown(n, p) => if p.None? then n else n + ("(" + p.value + ")")
    case ArrayType(e) => "array(" + Print(e) + ")"
    case MapType(k, v) => "map" + ("(" + (Print(k) + ", " + Print(v)) + ")")
    case RowType(fs) => "row" + ("(" + PrintFields(fs) + ")")
  }

  function PrintFields(fs: seq<Field>): string
    decreases fs
  {
    if fs == [] then ""
    else fs[0].name + " " + Print(fs[0].ty) + (if |fs| == 1 then "" else ", " + PrintFields(fs[1..]))
  }

  /** The PostgreSQL type of a tree; PostgreSQL has no arrays of arrays, so those become text arrays. */
  function PgOf(t: TrinoType): PgType {
    match t
    case Scalar(k) => PgOfKind(k)
    case Parametrised(k, _) => PgOfKind(k)
    case ZonedTime(_) => TIMETZ
    case ZonedTimestamp(_) => TIMESTAMPTZ
    case Unknown(_, _) => TEXT
    case ArrayType(e) => if e.ArrayType? then ArrayOf(TEXT) else ArrayOf(PgOf(e))
    case MapType(_, _) => JSONB
    case RowType(_) => JSONB
  }

  // ---------------------------------------------------------------- proofs

  lemma ShortNames(k: Kind)
    requires k.KReal? || k.KChar? || k.KDate? || k.KTime? || k.KJson? || k.KUuid?
    ensures BaseToPg(NameOf(k)) == PgOfKind(k)
  {
  }

  lemma MediumNames(k: Kind)
    requires k.KBoolean? || k.KTinyint? || k.KSmallint? || k.KInteger? || k.KBigint? || k.KDouble? || k.KDecimal? || k.KVarchar? || k.KInterval?
    ensures BaseToPg(NameOf(k)) == PgOfKind(k)
  {
  }

  lemma LongNames(k: Kind)
    requires k.KVarbinary? || k.KTimestamp? || k.KIpAddress?
    ensures BaseToPg(NameOf(k)) == PgOfKind(k)
  {
  }

  lemma ZonedNames()
    ensures BaseToPg("time with time zone") == TIMETZ && BaseToPg("timestamp with time zone") == TIMESTAMPTZ
  {
    assert |"time with time zone"| == 19 && |"timestamp with time zone"| == 24;
  }

  lemma IntervalNames()
    ensures BaseToPg("interval year to month") == INTERVAL && BaseToPg("interval day to second") == INTERVAL
  {
    assert |"interval year to month"| == 22 && |"interval day to second"| == 22;
  }

  /** The table of base names gives every scalar its type. */
  lemma KindNames(k: Kind)
    ensures BaseToPg(NameOf(k)) == PgOfKind(k)
  {
    if k.KReal? || k.KChar? || k.KDate? || k.KTime? || k.KJson? || k.KUuid? {
      ShortNames(k);
    } else if k.KVarbinary? || k.KTimestamp? || k.KIpAddress? {
      LongNames(k);
    } else if k.KTimeTz? || k.KTimestampTz? {
      ZonedNames();
    } else if k.KIntervalYear? || k.KIntervalDay? {
      IntervalNames();
    } else {
      MediumNames(k);
    }
  }

  lemma {:induction false} ShortBaseIsKnown(n: string)
    requires ShortBase(n) != TEXT
    ensures KnownName(n)
  {
    assert NameOf(KReal) == "real" && NameOf(KChar) == "char" && NameOf(KDate) == "date";
    assert NameOf(KTime) == "time" && NameOf(KJson) == "json" && NameOf(KUuid) == "uuid";
  }

  lemma {:induction false} MediumBaseIsKnown(n: string)
    requires MediumBase(n) != TEXT
    ensures KnownName(n)
  {
    assert NameOf(KBoolean) == "boolean" && NameOf(KTinyint) == "tinyint" && NameOf(KSmallint) == "smallint";
    assert NameOf(KInteger) == "integer" && NameOf(KBigint) == "bigint" && NameOf(KDouble) == "double";
    assert NameOf(KDecimal) == "decimal" && NameOf(KVarchar) == "varchar" && NameOf(KInterval) == "interval";
  }

  lemma {:induction false} LongBaseIsKnown(n: string)
    requires LongBase(n) != TEXT
    ensures KnownName(n)
  {
    if |n| == 9 {
      assert n == NameOf(KVarbinary) || n == NameOf(KTimestamp) || n == NameOf(KIpAddress);
    } else if |n| == 19 {
      assert n == NameOf(KTimeTz);
    } else if |n| == 24 {
      assert n == NameOf(KTimestampTz);
    } else {
      assert n == NameOf(KIntervalYear) || n == NameOf(KIntervalDay);
    }
  }

  /** The table knows no other names: everything else is text. */
  lemma {:induction false} OtherNamesAreText(n: string)
    requires !KnownName(n)
    ensures BaseToPg(n) == TEXT
  {
    if |n| <= 4 {
      if ShortBase(n) != TEXT { ShortBaseIsKnown(n); }
    } else if |n| <= 8 {
      if MediumBase(n) != TEXT { MediumBaseIsKnown(n); }
    } else {
      if LongBase(n) != TEXT { LongBaseIsKnown(n); }
    }
  }

  lemma StructureNames()
    ensures BaseToPg("map") == JSONB && BaseToPg("row") == JSONB
  {
  }

  /** Lower-case letters and spaces only, starting and ending with a letter. */
  predicate Wordy(s: string) {
    && s != "" && 'a' <= s[0] <= 'z' && 'a' <= s[|s| - 1] <= 'z'
    && forall i :: 0 <= i < |s| ==> s[i] == ' ' || 'a' <= s[i] <= 'z'
  }

  lemma WordyIsPlain(s: string)
    requires Wordy(s)
    ensures Plain(s)
  {
    assert Lower(s) == s;
  }

  lemma NumberNamesAreWordy(k: Kind)
    requires k.KBoolean? || k.KTinyint? || k.KSmallint? || k.KInteger? || k.KBigint? || k.KReal? || k.KDouble? || k.KDecimal?
    ensures Wordy(NameOf(k)) && NameOf(k) != "array"
  {
  }

  lemma TextNamesAreWordy(k: Kind)
    requires k.KVarchar? || k.KChar? || k.KVarbinary? || k.KDate? || k.KTime? || k.KTimestamp? || k.KJson? || k.KUuid? || k.KIpAddress? || k.KInterval?
    ensures Wordy(NameOf(k)) && NameOf(k) != "array"
  {
  }

  lemma ZonedNamesAreWordy()
    ensures Wordy(NameOf(KTimeTz)) && Wordy(NameOf(KTimestampTz))
  {
  }

  lemma IntervalNamesAreWordy()
    ensures Wordy(NameOf(KIntervalYear)) && Wordy(NameOf(KIntervalDay))
  {
  }

  lemma KindNamesAreWordy(k: Kind)
    ensures Wordy(NameOf(k))
    ensures k != KTimeTz && k != KTimestampTz && k != KIntervalYear && k != KIntervalDay ==> NameOf(k) != "array"
  {
    if k.KTimeTz? || k.KTimestampTz? {
      ZonedNamesAreWordy();
    } else if k.KIntervalYear? || k.KIntervalDay? {
      IntervalNamesAreWordy();
    } else if k.KVarchar? || k.KChar? || k.KVarbinary? || k.KDate? || k.KTime? || k.KTimestamp? || k.KJson? || k.KUuid? || k.KIpAddress? || k.KInterval? {
      TextNamesAreWordy(k);
    } else {
      NumberNamesAreWordy(k);
    }
  }

  lemma LowerConcat(a: string, b: string)
    ensures Lower(a + b) == Lower(a) + Lower(b)
  {
  }

  lemma LowerTwice(s: string)
    ensures Lower(Lower(s)) == Lower(s)
  {
  }

  /** Stripping a parameter list leaves what is before and after it. */
  lemma StrippedParams(name: string, p: string, suffix: string)
    requires (forall i :: 0 <= i < |name| ==> name[i] != '(') && (forall i :: 0 <= i < |suffix| ==> suffix[i] != ')')
    ensures Stripped(name + ("(" + p + ")") + suffix) == Trim(name + suffix)
  {
    var s := name + ("(" + p + ")") + suffix;
    var open, close := |name|, |name| + |p| + 2;
    assert s[open] == '(' && s[close - 1] == ')' && s[..open] == name && s[close..] == suffix;
    assert forall j :: 0 <= j < open ==> s[j] == name[j];
    FirstOfIs(s, '(', 0, open);
    assert forall j :: close <= j < |s| ==> s[j] == suffix[j - close];
    LastBeforeIs(s, ')', |s|, close);
  }

  lemma StrippedPlain(s: string)
    requires Plain(s)
    ensures Stripped(s) == s
  {
    FirstOfIs(s, '(', 0, |s|);
    TrimTrimmed(s);
  }

  lemma {:induction false} ArrayStarts(n: string)
    ensures StartsWith(n, "array(") ==> FirstOf(n, '(', 0) == 5 && n[..5] == "array"
  {
    if StartsWith(n, "array(") {
      assert n[5] == n[..6][5] == '(' && n[..5] == n[..6][..5] == "array";
      assert forall j :: 0 <= j < 5 ==> n[j] == "array"[j];
      FirstOfIs(n, '(', 0, 5);
    }
  }

  /** Only an array name starts with `array(`. */
  lemma {:induction false} NotAnArray(n: string)
    requires FirstOf(n, '(', 0) != 5 || n[..5] != "array"
    ensures !StartsWith(n, "array(")
  {
    ArrayStarts(n);
  }

  lemma ArrayNeedsBracket(n: string)
    ensures StartsWith(n, "array(") ==> |n| > 5 && n[5] == '('
  {
    if StartsWith(n, "array(") { assert n[..6][5] == '('; }
  }

  lemma EndsWithBracket(n: string)
    ensures EndsWith(n, ")") ==> n != "" && n[|n| - 1] == ')'
  {
    if EndsWith(n, ")") { assert n[|n| - 1..][0] == ')'; }
  }

  lemma PlainName(name: string)
    requires Plain(name)
    ensures TrinoTypeToPg(name) == BaseToPg(name)
  {
    TrimTrimmed(name);
    assert Lower(Trim(name)) == name;
    FirstOfIs(name, '(', 0, |name|);
    ArrayNeedsBracket(name);
    StrippedPlain(name);
  }

  /** Parameters of any content, nested brackets included, do not matter after a plain name. */
  lemma BracketedName(name: string, p: string)
    requires Plain(name) && name != "" && name != "array"
    ensures TrinoTypeToPg(name + ("(" + p + ")")) == BaseToPg(name)
  {
    var s := name + ("(" + p + ")");
    assert s[0] == name[0] && s[|s| - 1] == ')';
    TrimTrimmed(s);
    var n := name + ("(" + Lower(p) + ")");
    assert Lower(s) == n;
    assert n[|name|] == '(' && forall j :: 0 <= j < |name| ==> n[j] == name[j];
    FirstOfIs(n, '(', 0, |name|);
    assert n[..|name|] == name;
    NotAnArray(n);
    StrippedParams(name, Lower(p), "");
    assert n + "" == n && name + "" == name;
    TrimTrimmed(name);
  }

  /** Precision in the middle of a zoned name. */
  lemma ZonedName(name: string, p: string)
    requires Wordy(name)
    ensures TrinoTypeToPg(name + ("(" + p + ")") + " with time zone") == BaseToPg(name + " with time zone")
  {
    var z := " with time zone";
    var s := name + ("(" + p + ")") + z;
    WordyIsPlain(name);
    ZoneSuffix();
    assert s[0] == name[0] && s[|s| - 1] == z[14];
    TrimTrimmed(s);
    var n := name + ("(" + Lower(p) + ")") + z;
    LowerConcat(name + ("(" + p + ")"), z);
    assert Lower(name + ("(" + p + ")")) == name + ("(" + Lower(p) + ")");
    assert Lower(s) == n;
    EndsWithBracket(n);
    StrippedParams(name, Lower(p), z);
    assert (name + z)[0] == name[0] && (name + z)[|name + z| - 1] == z[14];
    TrimTrimmed(name + z);
  }

  lemma ZoneSuffix()
    ensures var z := " with time zone";
            && |z| == 15 && z[14] == 'e' && Lower(z) == z
            && forall i :: 0 <= i < |z| ==> z[i] != ')'
  {
  }

  lemma LowerTail(s: string)
    requires s != ""
    ensures Lower(s)[1..] == Lower(s[1..]) && IsSpace(Lower(s)[0]) == IsSpace(s[0])
  {
  }

  lemma TrimStartStep(s: string)
    requires s != "" && IsSpace(s[0])
    ensures TrimStart(s) == TrimStart(s[1..])
  {
  }

  lemma {:induction false} TrimStartOfLower(s: string)
    ensures TrimStart(Lower(s)) == Lower(TrimStart(s))
  {
    if s == "" {
    } else {
      LowerTail(s);
      if IsSpace(s[0]) {
        TrimStartOfLower(s[1..]);
        TrimStartStep(s);
        TrimStartStep(Lower(s));
      }
    }
  }

  lemma {:induction false} TrimEndOfLower(s: string)
    ensures TrimEnd(Lower(s)) == Lower(TrimEnd(s))
  {
    if s != "" && IsSpace(s[|s| - 1]) {
      assert Lower(s)[..|s| - 1] == Lower(s[..|s| - 1]);
      TrimEndOfLower(s[..|s| - 1]);
    }
  }

  /** Case and surrounding white space do not matter. */
  lemma OnlyNormalFormMatters(a: string, b: string)
    requires Lower(Trim(a)) == Lower(Trim(b))
    ensures TrinoTypeToPg(a) == TrinoTypeToPg(b)
  {
  }

  lemma LoweredName(s: string)
    ensures TrinoTypeToPg(Lower(s)) == TrinoTypeToPg(s)
  {
    TrimStartOfLower(s);
    TrimEndOfLower(TrimStart(s));
    LowerTwice(Trim(s));
    OnlyNormalFormMatters(Lower(s), s);
  }

  lemma WrappedText(pre: string, p: string, post: string)
    requires Lower(pre) == pre && Lower(post) == post
    requires pre != "" && post != "" && !IsSpace(pre[0]) && !IsSpace(post[|post| - 1])
    ensures Lower(Trim(pre + p + post)) == pre + Lower(p) + post
  {
    var s := pre + p + post;
    assert s[0] == pre[0] && s[|s| - 1] == post[|post| - 1];
    TrimTrimmed(s);
    LowerConcat(pre + p, post);
    LowerConcat(pre, p);
  }

  lemma WrappedParts(pre: string, q: string, post: string)
    ensures var n := pre + q + post;
            StartsWith(n, pre) && EndsWith(n, post) && n[|pre|..|n| - |post|] == q
  {
    var n := pre + q + post;
    assert n[..|pre|] == pre;
    assert n[|n| - |post|..] == post;
  }

  lemma ArrayWord()
    ensures |"array("| == 6 && Lower("array(") == "array(" && Lower(")") == ")"
  {
    assert forall i :: 0 <= i < 6 ==> LowerChar("array("[i]) == "array("[i];
  }

  lemma ArrayShape(p: string)
    ensures ElementName(Lower(Trim("array(" + p + ")"))) == Some(Lower(p))
  {
    ArrayWord();
    WrappedText("array(", p, ")");
    WrappedParts("array(", Lower(p), ")");
  }

  lemma ArrayStep(name: string, x: string)
    requires ElementName(Lower(Trim(name))) == Some(x)
    ensures TrinoTypeToPg(name) == ScalarToArray(TrinoTypeToPg(x))
  {
  }

  lemma ArrayName(p: string)
    ensures TrinoTypeToPg("array(" + p + ")") == ScalarToArray(TrinoTypeToPg(p))
  {
    var s := "array(" + p + ")";
    ArrayShape(p);
    ArrayStep(s, Lower(p));
    LoweredName(p);
  }

  lemma ScalarCase(k: Kind)
    ensures TrinoTypeToPg(NameOf(k)) == PgOfKind(k)
  {
    KindNamesAreWordy(k);
    WordyIsPlain(NameOf(k));
    PlainName(NameOf(k));
    KindNames(k);
  }

  lemma ParametrisedCase(k: Kind, p: string)
    requires WellFormed(Parametrised(k, p))
    ensures TrinoTypeToPg(NameOf(k) + ("(" + p + ")")) == PgOfKind(k)
  {
    KindNamesAreWordy(k);
    WordyIsPlain(NameOf(k));
    BracketedName(NameOf(k), p);
    KindNames(k);
  }

  lemma ZonedLiterals()
    ensures "time" + " with time zone" == "time with time zone"
    ensures "timestamp" + " with time zone" == "timestamp with time zone"
  {
  }

  lemma ZonedCase(name: string, full: string, p: string, pg: PgType)
    requires Wordy(name) && full == name + " with time zone" && BaseToPg(full) == pg
    ensures TrinoTypeToPg(name + ("(" + p + ")") + " with time zone") == pg
  {
    ZonedName(name, p);
  }

  /**
    For every Trino type, nested to any depth, the printed name is mapped to the type assigned to
    the tree, arrays of arrays to text arrays.
   */
  lemma {:induction false} NamesMapToTheirTypes(t: TrinoType)
    requires WellFormed(t)
    ensures TrinoTypeToPg(Print(t)) == PgOf(t)
  {
    match t
    case Scalar(k) => ScalarCase(k);
    case Parametrised(k, p) => ParametrisedCase(k, p);
    case ZonedTime(p) =>
      TextNamesAreWordy(KTime);
      ZonedLiterals();
      ZonedNames();
      ZonedCase(NameOf(KTime), NameOf(KTimeTz), p, TIMETZ);
    case ZonedTimestamp(p) =>
      TextNamesAreWordy(KTimestamp);
      ZonedLiterals();
      ZonedNames();
      ZonedCase(NameOf(KTimestamp), NameOf(KTimestampTz), p, TIMESTAMPTZ);
    case Unknown(n, p) =>
      OtherNamesAreText(n);
      if p.None? { PlainName(n); } else { BracketedName(n, p.value); }
    case ArrayType(e) =>
      ArrayName(Print(e));
      NamesMapToTheirTypes(e);
      ElementTypes(e);
    case MapType(k, v) => StructuresAreBracketed("map", Print(k) + ", " + Print(v));
    case RowType(fs) => StructuresAreBracketed("row", PrintFields(fs));
  }

  lemma StructuresAreBracketed(name: string, p: string)
    requires name == "map" || name == "row"
    ensures TrinoTypeToPg(name + ("(" + p + ")")) == JSONB
  {
    assert Wordy(name);
    WordyIsPlain(name);
    assert |name| == 3 && |"array"| == 5;
    BracketedName(name, p);
    StructureNames();
  }

  lemma ElementTypes(e: TrinoType)
    ensures PgOf(e).ArrayOf? <==> e.ArrayType?
  {
  }
}
