/**
 * The classifier chain of package `lib/repository`: the gorm classifier
 * (`GormErrConverter`), which recognises gorm's sentinel errors by identity,
 * and the MySQL classifier (`MySQLErrConverter`), which embeds it and then
 * tries two fixed MySQL message patterns. The patterns are hand-written
 * matchers with the semantics of Go's regexp package on text without
 * newlines inside the captures: leftmost match, greedy `.+`, `.` never
 * matching '\n', `$` the end of the text.
 */
module RepositoryError {
  import opened Wrappers
  import opened DomainError

  // Messages and debug hints of the classifiers.
  const NotFoundMessage: string := "item not found with specified identifier/field"
  const UnaddressableHint: string :=
    "repository: fatal human error: use reference &DBModel{} in gorm: db.CallSomething(model)"
  const UncaughtHint: string := "repository: fatal uncaught db error"

  // ---------------------------------------------------------------------------
  // The gorm classifier

  datatype GormErrConverter = GormErrConverter(dialect: string)
  {
    predicate CheckNoRecordError(dbErr: ErrorValue)
    {
      dbErr == Sentinel(ErrRecordNotFound)
    }

    predicate CheckTransactionError(dbErr: ErrorValue)
    {
      dbErr == Sentinel(ErrInvalidTransaction) || dbErr == Sentinel(ErrCantStartTransaction)
    }

    predicate CheckSQLError(dbErr: ErrorValue)
    {
      dbErr == Sentinel(ErrInvalidSQL)
    }

    predicate CheckUnaddressedError(dbErr: ErrorValue)
    {
      dbErr == Sentinel(ErrUnaddressable)
    }

    /** One of the four checks holds: the error is one gorm names. */
    predicate Recognizes(dbErr: ErrorValue)
    {
      CheckNoRecordError(dbErr) || CheckTransactionError(dbErr) ||
      CheckSQLError(dbErr) || CheckUnaddressedError(dbErr)
    }

    /**
     * `AppError(dbErr, message)`: nil for nil; a not-found error becomes the
     * unknown-resource error with a fixed message and no cause; every other
     * error becomes the internal-server error wrapping `dbErr`, with the
     * caller's message only for transaction and SQL errors.
     */
    function AppError(dbErr: Option<ErrorValue>, message: string): (r: Option<DomainError.AppError>)
      ensures r.None? <==> dbErr.None?
      ensures r.Some? ==> (r.value.Cause().None? <==> CheckNoRecordError(dbErr.value))
      ensures r.Some? && CheckNoRecordError(dbErr.value) ==>
        && r.value.HTTPCode() == StatusNotFound && r.value.Code() == 0x44
        && r.value.Message() == ErrUnknownResource.Message() + ": " + NotFoundMessage
      ensures r.Some? && (CheckTransactionError(dbErr.value) || CheckSQLError(dbErr.value)) ==>
        r == ErrInternalServer.Wrap(dbErr, message)
      ensures r.Some? && CheckUnaddressedError(dbErr.value) ==>
        r == ErrInternalServer.Wrap(dbErr, UnaddressableHint)
      ensures r.Some? && !Recognizes(dbErr.value) ==>
        r == ErrInternalServer.Wrap(dbErr, UncaughtHint)
    {
      match dbErr
      case None => None
      case Some(e) =>
        if CheckNoRecordError(e) then
          Some(ErrUnknownResource.WithMessage(NotFoundMessage))
        else if CheckTransactionError(e) then
          ErrInternalServer.Wrap(dbErr, message)
        else if CheckSQLError(e) then
          ErrInternalServer.Wrap(dbErr, message)
        else if CheckUnaddressedError(e) then
          ErrInternalServer.Wrap(dbErr, UnaddressableHint)
        else
          ErrInternalServer.Wrap(dbErr, UncaughtHint)
    }
  }

  /**
   * The four checks hold for disjoint sets of errors, and together exactly
   * for gorm's five sentinels: no two categories can both apply.
   */
  lemma GormChecksPartitionSentinels(c: GormErrConverter, e: ErrorValue)
    ensures c.Recognizes(e) <==> e.Sentinel?
    ensures c.CheckNoRecordError(e) ==> !c.CheckTransactionError(e) && !c.CheckSQLError(e) && !c.CheckUnaddressedError(e)
    ensures c.CheckTransactionError(e) ==> !c.CheckSQLError(e) && !c.CheckUnaddressedError(e)
    ensures c.CheckSQLError(e) ==> !c.CheckUnaddressedError(e)
  {
    if e.Sentinel? {
      match e.sentinel
      case ErrRecordNotFound =>
      case ErrInvalidTransaction =>
      case ErrCantStartTransaction =>
      case ErrInvalidSQL =>
      case ErrUnaddressable =>
    }
  }

  function NewGormErrCvt(dialect: string): GormErrConverter
  {
    GormErrConverter(dialect)
  }

  // ---------------------------------------------------------------------------
  // Matching the two MySQL message patterns

  predicate IsDigit(c: char)
  {
    '0' <= c <= '9'
  }

  /** Text that `.` can run over: no newline. */
  predicate NoNewline(s: string)
  {
    forall i :: 0 <= i < |s| ==> s[i] != '\n'
  }

  /** `Error (?P<Code>\d{4})` at the start of `t`. */
  predicate HasErrorCode(t: string)
  {
    |t| >= 10 && t[..6] == "Error " && forall i :: 6 <= i < 10 ==> IsDigit(t[i])
  }

  // The literal parts of the patterns.
  const DuplicateHead: string := ": Duplicate entry '"
  const DuplicateSep: string := "' for key '"
  const DataLengthHead: string := ": Data too long for column '"
  const DataLengthTail: string := "' at row "

  /** `sep` occurs at `p` in `t` with text on both sides. */
  predicate SplitsAt(t: string, sep: string, p: int)
  {
    1 <= p && p + |sep| < |t| && t[p..p + |sep|] == sep
  }

  /** The largest split position not above `hi`. */
  function LastSplit(t: string, sep: string, hi: int): (r: Option<nat>)
    decreases hi
    ensures r.Some? ==> r.value <= hi && SplitsAt(t, sep, r.value)
    ensures forall p :: (if r.Some? then r.value else 0) < p <= hi ==> !SplitsAt(t, sep, p)
  {
    if hi < 1 then None
    else if SplitsAt(t, sep, hi) then Some(hi)
    else LastSplit(t, sep, hi - 1)
  }

  /** `(.+)sep(.+)$` over all of `t`: the greedy first group takes the last usable `sep`. */
  function SplitGreedy(t: string, sep: string): (r: Option<(string, string)>)
    ensures r.Some? ==> r.value.0 != [] && r.value.1 != [] && t == r.value.0 + sep + r.value.1
  {
    match LastSplit(t, sep, |t|)
    case None => None
    case Some(p) =>
      assert t == t[..p] + t[p..p + |sep|] + t[p + |sep|..];
      Some((t[..p], t[p + |sep|..]))
  }

  /** The compiled patterns: the two of the source and their evident corrections. */
  datatype Pattern =
    | RegexpMySQLDuplicate  // ^Error (?P<Code>\d{4}): Duplicate entry '(?P<Field>.+)' for key '(?P<Value>.+)'$
    | RegexpMySQLDataLength // Error (?P<Code>\d{4}): Data too long for column '(?P<Field>)' at row (?P<Row>.+)$
    | IntendedDuplicate     // ^Error (?P<Code>\d{4}): Duplicate entry '(?P<Value>.+)' for key '(?P<Field>.+)'$
    | IntendedDataLength    // Error (?P<Code>\d{4}): Data too long for column '(?P<Field>.+)' at row (?P<Row>.+)$
  {
    /** The pattern starts with `^`. */
    predicate Anchored()
    {
      RegexpMySQLDuplicate? || IntendedDuplicate?
    }

    /** `SubexpNames()`: the name of each group, the whole match first. */
    function SubexpNames(): (names: seq<string>)
      ensures |names| == 4 && names[0] == ""
      ensures forall i, j :: 0 <= i < j < |names| ==> names[i] != names[j]
    {
      match this
      case RegexpMySQLDuplicate => ["", "Code", "Field", "Value"]
      case RegexpMySQLDataLength => ["", "Code", "Field", "Row"]
      case IntendedDuplicate => ["", "Code", "Value", "Field"]
      case IntendedDataLength => ["", "Code", "Field", "Row"]
    }
  }

  /** The three groups of a match, in pattern order. */
  datatype Captures = Captures(code: string, first: string, second: string)

  /** The pattern, without its leading `^`, matched from the start of `t` to its end. */
  function MatchAt(p: Pattern, t: string): Option<Captures>
  {
    match p
    case RegexpMySQLDuplicate | IntendedDuplicate => DuplicateAt(t)
    case RegexpMySQLDataLength => DataLengthAt(t)
    case IntendedDataLength => IntendedDataLengthAt(t)
  }

  /** `Error (\d{4}): Duplicate entry '(.+)' for key '(.+)'$` from the start of `t`. */
  function DuplicateAt(t: string): Option<Captures>
  {
    if !HasErrorCode(t) then None
    else
      var rest := t[10..];
      if |rest| > |DuplicateHead| && rest[..|DuplicateHead|] == DuplicateHead
         && rest[|rest| - 1] == '\'' && NoNewline(rest)
      then
        match SplitGreedy(rest[|DuplicateHead|..|rest| - 1], DuplicateSep)
        case None => None
        case Some((entry, key)) => Some(Captures(t[6..10], entry, key))
      else None
  }

  /** `Error (\d{4}): Data too long for column '()' at row (.+)$` from the start of `t`. */
  function DataLengthAt(t: string): (r: Option<Captures>)
    ensures r.Some? ==> HasErrorCode(t) && r.value.code == t[6..10]
    ensures r.Some? ==> r.value.first == "" && r.value.second != []
  {
    if !HasErrorCode(t) then None
    else
      var rest, head := t[10..], DataLengthHead + DataLengthTail;
      if |rest| > |head| && rest[..|head|] == head && NoNewline(rest[|head|..])
      then Some(Captures(t[6..10], "", rest[|head|..]))
      else None
  }

  /** `Error (\d{4}): Data too long for column '(.+)' at row (.+)$` from the start of `t`. */
  function IntendedDataLengthAt(t: string): (r: Option<Captures>)
    ensures r.Some? ==> HasErrorCode(t) && r.value.code == t[6..10]
    ensures r.Some? ==> r.value.first != [] && r.value.second != []
  {
    if !HasErrorCode(t) then None
    else
      var rest := t[10..];
      if |rest| >= |DataLengthHead| && rest[..|DataLengthHead|] == DataLengthHead
         && NoNewline(rest[|DataLengthHead|..])
      then
        match SplitGreedy(rest[|DataLengthHead|..], DataLengthTail)
        case None => None
        case Some((column, row)) => Some(Captures(t[6..10], column, row))
      else None
  }

  /** The leftmost start, not below `i`, at which `p` matches, with its captures. */
  function Leftmost(p: Pattern, s: string, i: nat): (r: Option<(nat, Captures)>)
    requires i <= |s|
    decreases |s| - i
    ensures r.Some? ==> i <= r.value.0 <= |s| && MatchAt(p, s[r.value.0..]) == Some(r.value.1)
    ensures forall j :: i <= j <= |s| && (r.None? || j < r.value.0) ==> MatchAt(p, s[j..]).None?
  {
    var here := MatchAt(p, s[i..]);
    if here.Some? then Some((i, here.value))
    else if i == |s| then None
    else Leftmost(p, s, i + 1)
  }

  /** `FindStringSubmatch(s)`: empty when nothing matches, else the match and its groups. */
  function FindStringSubmatch(p: Pattern, s: string): (r: seq<string>)
    ensures r == [] || |r| == |p.SubexpNames()|
    ensures p.Anchored() ==> (r == [] <==> MatchAt(p, s).None?)
    ensures p.Anchored() && r != [] ==> r[0] == s && MatchAt(p, s) == Some(Captures(r[1], r[2], r[3]))
    ensures !p.Anchored() && r != [] ==>
      && |r[0]| <= |s| && r[0] == s[|s| - |r[0]|..]
      && MatchAt(p, s[|s| - |r[0]|..]) == Some(Captures(r[1], r[2], r[3]))
  {
    if p.Anchored() then
      match MatchAt(p, s)
      case None => []
      case Some(c) => [s, c.code, c.first, c.second]
    else
      match Leftmost(p, s, 0)
      case None => []
      case Some((i, c)) => [s[i..], c.code, c.first, c.second]
  }

  /**
   * For a pattern without `^`, the result is empty exactly when no start
   * matches, and otherwise comes from the leftmost start that does.
   */
  lemma FindStringSubmatchLeftmost(p: Pattern, s: string)
    requires !p.Anchored()
    ensures FindStringSubmatch(p, s) == [] <==> forall j :: 0 <= j <= |s| ==> MatchAt(p, s[j..]).None?
    ensures var r := FindStringSubmatch(p, s);
      r != [] ==> forall j :: 0 <= j < |s| - |r[0]| ==> MatchAt(p, s[j..]).None?
  {
    var r := FindStringSubmatch(p, s);
    match Leftmost(p, s, 0)
    case None =>
    case Some((i, c)) =>
      assert |r[0]| == |s| - i;
  }

  /** `Match(s)`: the pattern matches somewhere in `s`. */
  function MatchString(p: Pattern, s: string): (b: bool)
    ensures p.Anchored() ==> (b <==> MatchAt(p, s).Some?)
    ensures !p.Anchored() ==> (!b <==> forall j :: 0 <= j <= |s| ==> MatchAt(p, s[j..]).None?)
  {
    if p.Anchored() then FindStringSubmatch(p, s) != []
    else FindStringSubmatchLeftmost(p, s); FindStringSubmatch(p, s) != []
  }

  // ---------------------------------------------------------------------------
  // getParams

  /** The map `getParams` builds: every named group to its capture, or nothing without a match. */
  function Params(p: Pattern, s: string): (m: map<string, string>)
    ensures FindStringSubmatch(p, s) == [] ==> m == map[]
    ensures FindStringSubmatch(p, s) != [] ==>
      && m.Keys == (set i | 1 <= i < 4 :: p.SubexpNames()[i])
      && forall i :: 1 <= i < 4 ==> m[p.SubexpNames()[i]] == FindStringSubmatch(p, s)[i]
  {
    var found, names := FindStringSubmatch(p, s), p.SubexpNames();
    if found == [] then map[]
    else map[names[1] := found[1], names[2] := found[2], names[3] := found[3]]
  }

  /** `getParams(regEx, str)`: a loop over the group names, filling a fresh map. */
  method GetParams(regEx: Pattern, str: string) returns (paramsMap: map<string, string>)
    ensures paramsMap == Params(regEx, str)
  {
    var found := FindStringSubmatch(regEx, str);
    var names := regEx.SubexpNames();
    paramsMap := map[];
    for i := 0 to |names|
      invariant found == [] ==> paramsMap == map[]
      invariant found != [] ==> paramsMap.Keys == set j | 1 <= j < i :: names[j]
      invariant found != [] ==> forall j :: 1 <= j < i ==> paramsMap[names[j]] == found[j]
    {
      if i > 0 && i <= |found| {
        paramsMap := paramsMap[names[i] := found[i]];
      }
    }
    ParamsDetermined(regEx, str, paramsMap);
  }

  /** A map with the keys and values `Params` promises is `Params`. */
  lemma ParamsDetermined(p: Pattern, s: string, m: map<string, string>)
    requires FindStringSubmatch(p, s) == [] ==> m == map[]
    requires FindStringSubmatch(p, s) != [] ==>
      && m.Keys == (set i | 1 <= i < 4 :: p.SubexpNames()[i])
      && forall i :: 1 <= i < 4 ==> m[p.SubexpNames()[i]] == FindStringSubmatch(p, s)[i]
    ensures m == Params(p, s)
  {
  }

  /** Reading a key of a Go map: the zero value "" when the key is absent. */
  function Get(m: map<string, string>, key: string): string
  {
    if key in m then m[key] else ""
  }

  // ---------------------------------------------------------------------------
  // The MySQL classifier

  datatype MySQLErrConverter = MySQLErrConverter(gorm: GormErrConverter)
  {
    /** `checkDuplicateError`: the anchored duplicate pattern matches the whole error text. */
    function CheckDuplicateError(dbErr: ErrorValue): (b: bool)
      ensures b <==> DuplicateAt(ErrorString(dbErr)).Some?
    {
      MatchString(RegexpMySQLDuplicate, ErrorString(dbErr))
    }

    /** `checkDataLengthError`: the data-length pattern matches some suffix of the error text. */
    function CheckDataLengthError(dbErr: ErrorValue): (b: bool)
      ensures b <==> Leftmost(RegexpMySQLDataLength, ErrorString(dbErr), 0).Some?
    {
      MatchString(RegexpMySQLDataLength, ErrorString(dbErr))
    }

    /**
     * `AppError(dbErr, message)` as written: the embedded gorm classifier
     * first, then the two patterns. The gorm classifier answers every
     * non-nil error, so the result is always the gorm classifier's.
     */
    function AppError(dbErr: Option<ErrorValue>, message: string): (r: Option<DomainError.AppError>)
      ensures r == gorm.AppError(dbErr, message)
    {
      match dbErr
      case None => None
      case Some(e) =>
        var appErr := gorm.AppError(dbErr, message);
        if appErr.Some? then appErr
        else if CheckDuplicateError(e) then
          var field := Get(Params(RegexpMySQLDuplicate, ErrorString(e)), "Field");
          Some(ErrBadParameters.WithMessagef("conflict duplicate " + field))
        else if CheckDataLengthError(e) then
          var field := Get(Params(RegexpMySQLDataLength, ErrorString(e)), "Field");
          Some(ErrBadParameters.WithMessagef("data too long for " + field + " field"))
        else
          ErrInternalServer.Wrap(dbErr, message)
    }

    /**
     * The classifier as evidently intended: gorm's recognised sentinels
     * first, then the duplicate-key and data-too-long patterns with the key
     * and the column in the `Field` group, then the internal-server fallback.
     */
    function IntendedAppError(dbErr: Option<ErrorValue>, message: string): (r: Option<DomainError.AppError>)
      ensures r.None? <==> dbErr.None?
      ensures r.Some? && gorm.Recognizes(dbErr.value) ==> r == gorm.AppError(dbErr, message)
      ensures r.Some? && !gorm.Recognizes(dbErr.value) && MatchString(IntendedDuplicate, ErrorString(dbErr.value)) ==>
        r == Some(ErrBadParameters.WithMessage(
          "conflict duplicate " + FindStringSubmatch(IntendedDuplicate, ErrorString(dbErr.value))[3]))
      ensures r.Some? && !gorm.Recognizes(dbErr.value) && !MatchString(IntendedDuplicate, ErrorString(dbErr.value))
                && MatchString(IntendedDataLength, ErrorString(dbErr.value)) ==>
        r == Some(ErrBadParameters.WithMessage(
          "data too long for " + FindStringSubmatch(IntendedDataLength, ErrorString(dbErr.value))[2] + " field"))
      ensures r.Some? && !gorm.Recognizes(dbErr.value) && !MatchString(IntendedDuplicate, ErrorString(dbErr.value))
                && !MatchString(IntendedDataLength, ErrorString(dbErr.value)) ==>
        r == ErrInternalServer.Wrap(dbErr, message)
    {
      match dbErr
      case None => None
      case Some(e) =>
        var text := ErrorString(e);
        if gorm.Recognizes(e) then gorm.AppError(dbErr, message)
        else if MatchString(IntendedDuplicate, text) then
          var field := Get(Params(IntendedDuplicate, text), "Field");
          Some(ErrBadParameters.WithMessagef("conflict duplicate " + field))
        else if MatchString(IntendedDataLength, text) then
          var field := Get(Params(IntendedDataLength, text), "Field");
          Some(ErrBadParameters.WithMessagef("data too long for " + field + " field"))
        else
          ErrInternalServer.Wrap(dbErr, message)
    }
  }

  function NewMySQLErrCvt(): MySQLErrConverter
  {
    MySQLErrConverter(NewGormErrCvt("mysql"))
  }

  // ---------------------------------------------------------------------------
  // What the matchers accept, stated independently of how they scan

  ghost predicate IsCode(code: string)
  {
    |code| == 4 && forall i :: 0 <= i < 4 ==> IsDigit(code[i])
  }

  /** The messages the duplicate pattern describes, split into code, entry and key. */
  ghost predicate DuplicateShape(s: string, code: string, entry: string, key: string)
  {
    && IsCode(code) && entry != [] && key != [] && NoNewline(entry) && NoNewline(key)
    && s == "Error " + code + DuplicateHead + entry + DuplicateSep + key + "'"
  }

  /** The messages the data-length pattern as written describes: the column must be empty. */
  ghost predicate DataLengthShape(t: string, code: string, row: string)
  {
    && IsCode(code) && row != [] && NoNewline(row)
    && t == "Error " + code + DataLengthHead + DataLengthTail + row
  }

  /** The messages the intended data-length pattern describes. */
  ghost predicate IntendedDataLengthShape(t: string, code: string, column: string, row: string)
  {
    && IsCode(code) && column != [] && row != [] && NoNewline(column) && NoNewline(row)
    && t == "Error " + code + DataLengthHead + column + DataLengthTail + row
  }

  /** A separator that begins with a quote and, if it holds another quote, also ends with one. */
  ghost predicate QuoteBounded(sep: string)
  {
    |sep| > 0 && sep[0] == '\'' && forall k :: 0 < k < |sep| && sep[k] == '\'' ==> sep[|sep| - 1] == '\''
  }

  lemma NoNewlineConcat(a: string, b: string)
    ensures NoNewline(a + b) <==> NoNewline(a) && NoNewline(b)
  {
    if NoNewline(a) && NoNewline(b) {
      forall i | 0 <= i < |a + b| ensures (a + b)[i] != '\n' {
        if i >= |a| { assert (a + b)[i] == b[i - |a|]; }
      }
    }
    if NoNewline(a + b) {
      forall i | 0 <= i < |a| ensures a[i] != '\n' {
        assert (a + b)[i] == a[i];
      }
      forall i | 0 <= i < |b| ensures b[i] != '\n' {
        assert (a + b)[|a| + i] == b[i];
      }
    }
  }

  /** The greedy split takes at least the first part of any split with text on both sides. */
  lemma SplitGreedyMaximal(x: string, sep: string, y: string)
    requires x != [] && y != []
    ensures SplitGreedy(x + sep + y, sep).Some?
    ensures |SplitGreedy(x + sep + y, sep).value.0| >= |x|
  {
    var t := x + sep + y;
    assert t[|x|..|x| + |sep|] == sep;
    assert SplitsAt(t, sep, |x|);
  }

  /** With a quote-free right part, the greedy split is the given one. */
  lemma {:induction false} SplitGreedyExact(x: string, sep: string, y: string)
    requires x != [] && y != [] && QuoteBounded(sep) && '\'' !in y
    ensures SplitGreedy(x + sep + y, sep) == Some((x, y))
  {
    var t := x + sep + y;
    assert t[|x|..|x| + |sep|] == sep;
    assert SplitsAt(t, sep, |x|);
    assert t[..|x|] == x && t[|x| + |sep|..] == y;
  }

  lemma SeparatorsAreQuoteBounded()
    ensures QuoteBounded(DuplicateSep) && QuoteBounded(DataLengthTail)
  {
  }

  /** Reading an error code off a message that starts with one. */
  lemma ErrorCodeOf(code: string, tail: string)
    requires IsCode(code)
    ensures HasErrorCode("Error " + code + tail)
    ensures ("Error " + code + tail)[6..10] == code && ("Error " + code + tail)[10..] == tail
  {
    var t := "Error " + code + tail;
    assert t[..6] == "Error ";
    forall i | 6 <= i < 10 ensures IsDigit(t[i]) { assert t[i] == code[i - 6]; }
    assert t[6..10] == code;
  }

  /** Whatever the duplicate pattern matches has the duplicate shape. */
  lemma DuplicateMatchSound(p: Pattern, s: string)
    requires p.Anchored() && MatchAt(p, s).Some?
    ensures var c := MatchAt(p, s).value; DuplicateShape(s, c.code, c.first, c.second)
  {
    assert MatchAt(p, s) == DuplicateAt(s);
    var c := MatchAt(p, s).value;
    var rest := s[10..];
    DuplicateRestSound(rest, c.first, c.second);
    assert s == s[..6] + s[6..10] + rest;
  }

  /** The text after the code that the duplicate pattern accepts, rebuilt from its captures. */
  lemma DuplicateRestSound(rest: string, entry: string, key: string)
    requires |rest| > |DuplicateHead| && rest[..|DuplicateHead|] == DuplicateHead
    requires rest[|rest| - 1] == '\'' && NoNewline(rest)
    requires rest[|DuplicateHead|..|rest| - 1] == entry + DuplicateSep + key
    ensures NoNewline(entry) && NoNewline(key)
    ensures rest == DuplicateHead + entry + DuplicateSep + key + "'"
  {
    var inner := rest[|DuplicateHead|..|rest| - 1];
    assert rest == DuplicateHead + inner + "'";
    NoNewlineConcat(DuplicateHead, inner + "'");
    NoNewlineConcat(inner, "'");
    NoNewlineConcat(entry + DuplicateSep, key);
    NoNewlineConcat(entry, DuplicateSep);
  }

  /** What the duplicate pattern sees after the code when the message has the duplicate shape. */
  lemma DuplicateRest(inner: string)
    requires NoNewline(inner)
    ensures var rest := DuplicateHead + inner + "'";
      && |rest| > |DuplicateHead| && rest[..|DuplicateHead|] == DuplicateHead
      && rest[|rest| - 1] == '\'' && NoNewline(rest)
      && rest[|DuplicateHead|..|rest| - 1] == inner
  {
    var rest := DuplicateHead + inner + "'";
    assert rest[..|DuplicateHead|] == DuplicateHead;
    assert rest[|DuplicateHead|..|rest| - 1] == inner;
    NoNewlineConcat(inner, "'");
    NoNewlineConcat(DuplicateHead, inner + "'");
    assert rest == DuplicateHead + (inner + "'");
  }

  /** Every message of the duplicate shape is matched, with at least the given entry. */
  lemma DuplicateMatchComplete(p: Pattern, s: string, code: string, entry: string, key: string)
    requires p.Anchored() && DuplicateShape(s, code, entry, key)
    ensures MatchAt(p, s).Some? && MatchAt(p, s).value.code == code
    ensures |entry| <= |MatchAt(p, s).value.first|
  {
    var inner := entry + DuplicateSep + key;
    var rest := DuplicateHead + inner + "'";
    assert s == "Error " + code + rest;
    ErrorCodeOf(code, rest);
    NoNewlineConcat(entry, DuplicateSep);
    NoNewlineConcat(entry + DuplicateSep, key);
    DuplicateRest(inner);
    SplitGreedyMaximal(entry, DuplicateSep, key);
    assert MatchAt(p, s) == DuplicateAt(s);
  }

  /** With a quote-free key, the duplicate pattern captures exactly the entry and the key. */
  lemma DuplicateMatchExact(p: Pattern, s: string, code: string, entry: string, key: string)
    requires p.Anchored() && DuplicateShape(s, code, entry, key) && '\'' !in key
    ensures MatchAt(p, s) == Some(Captures(code, entry, key))
  {
    DuplicateMatchComplete(p, s, code, entry, key);
    var inner := entry + DuplicateSep + key;
    var rest := DuplicateHead + inner + "'";
    assert s == "Error " + code + rest;
    ErrorCodeOf(code, rest);
    assert rest[|DuplicateHead|..|rest| - 1] == inner;
    SeparatorsAreQuoteBounded();
    SplitGreedyExact(entry, DuplicateSep, key);
  }

  /** The data-length pattern as written matches from the start exactly the messages with an empty column. */
  lemma DataLengthMatchIff(t: string, code: string, row: string)
    ensures MatchAt(RegexpMySQLDataLength, t) == Some(Captures(code, "", row)) <==> DataLengthShape(t, code, row)
  {
    var head := DataLengthHead + DataLengthTail;
    if DataLengthShape(t, code, row) {
      assert t == "Error " + code + (head + row);
      ErrorCodeOf(code, head + row);
      assert (head + row)[..|head|] == head && (head + row)[|head|..] == row;
    }
    if MatchAt(RegexpMySQLDataLength, t) == Some(Captures(code, "", row)) {
      var rest := t[10..];
      assert rest == head + row;
      assert t == t[..6] + t[6..10] + rest;
    }
  }

  /** The `Field` the data-length pattern as written yields is always empty. */
  lemma DataLengthFieldAlwaysEmpty(s: string)
    ensures Get(Params(RegexpMySQLDataLength, s), "Field") == ""
  {
    var found := FindStringSubmatch(RegexpMySQLDataLength, s);
    if found != [] {
      var (i, c) := Leftmost(RegexpMySQLDataLength, s, 0).value;
      assert c.first == "";
      assert RegexpMySQLDataLength.SubexpNames()[2] == "Field";
    }
  }

  /** With a quote-free row, the intended data-length pattern captures the code, the column and the row. */
  lemma IntendedDataLengthExact(s: string, code: string, column: string, row: string)
    requires IntendedDataLengthShape(s, code, column, row) && '\'' !in row
    ensures FindStringSubmatch(IntendedDataLength, s) == [s, code, column, row]
  {
    var tail := column + DataLengthTail + row;
    var rest := DataLengthHead + tail;
    assert s == "Error " + code + rest;
    ErrorCodeOf(code, rest);
    assert rest[..|DataLengthHead|] == DataLengthHead && rest[|DataLengthHead|..] == tail;
    NoNewlineConcat(column, DataLengthTail);
    NoNewlineConcat(column + DataLengthTail, row);
    SeparatorsAreQuoteBounded();
    SplitGreedyExact(column, DataLengthTail, row);
    assert MatchAt(IntendedDataLength, s[0..]) == Some(Captures(code, column, row));
  }

  // ---------------------------------------------------------------------------
  // The classifiers on nil, on duplicate keys and on oversized values

  /** Both classifiers, as written and as intended, map nil to nil. */
  lemma ConvertersPassNil(c: MySQLErrConverter, message: string)
    ensures c.gorm.AppError(None, message) == None
    ensures c.AppError(None, message) == None && c.IntendedAppError(None, message) == None
  {
  }

  /** As written, every driver error, duplicate keys included, becomes an uncaught internal error. */
  lemma DriverErrorsClassifiedInternal(c: MySQLErrConverter, text: string, message: string)
    ensures c.AppError(Some(Driver(text)), message) == ErrInternalServer.Wrap(Some(Driver(text)), UncaughtHint)
    ensures c.AppError(Some(Driver(text)), message).value.HTTPCode() == StatusInternalServerError
  {
  }

  /** As written, the duplicate pattern's `Field` group holds the duplicated entry and `Value` the key. */
  lemma DuplicateFieldIsEntry(s: string, code: string, entry: string, key: string)
    requires DuplicateShape(s, code, entry, key) && '\'' !in key
    ensures Get(Params(RegexpMySQLDuplicate, s), "Field") == entry
    ensures Get(Params(RegexpMySQLDuplicate, s), "Value") == key
  {
    DuplicateMatchExact(RegexpMySQLDuplicate, s, code, entry, key);
    assert RegexpMySQLDuplicate.SubexpNames()[2] == "Field";
    assert RegexpMySQLDuplicate.SubexpNames()[3] == "Value";
  }

  /** With the group names corrected, `Field` holds the key. */
  lemma IntendedDuplicateFieldIsKey(s: string, code: string, entry: string, key: string)
    requires DuplicateShape(s, code, entry, key) && '\'' !in key
    ensures Get(Params(IntendedDuplicate, s), "Field") == key
  {
    DuplicateMatchExact(IntendedDuplicate, s, code, entry, key);
    assert IntendedDuplicate.SubexpNames()[3] == "Field";
  }

  /** The intended classifier reports a duplicate key as a bad parameter naming the key. */
  lemma IntendedDuplicateClassified(c: MySQLErrConverter, s: string, code: string, entry: string, key: string, message: string)
    requires DuplicateShape(s, code, entry, key) && '\'' !in key
    ensures c.IntendedAppError(Some(Driver(s)), message) == Some(ErrBadParameters.WithMessage("conflict duplicate " + key))
    ensures c.IntendedAppError(Some(Driver(s)), message).value.HTTPCode() == StatusBadRequest
  {
    DuplicateMatchExact(IntendedDuplicate, s, code, entry, key);
  }

  /** The duplicate pattern needs the `u` of "Duplicate" right after the code. */
  lemma DuplicateAtHead(t: string)
    requires DuplicateAt(t).Some?
    ensures |t| > 13 && t[13] == 'u'
  {
    var rest := t[10..];
    assert rest[..|DuplicateHead|] == DuplicateHead;
    assert rest[3] == DuplicateHead[3];
  }

  /** An oversized-value message is not a duplicate-key message. */
  lemma DataLengthNotDuplicate(s: string, code: string, column: string, row: string)
    requires IntendedDataLengthShape(s, code, column, row)
    ensures !MatchString(IntendedDuplicate, s) && !MatchString(RegexpMySQLDuplicate, s)
  {
    var rest := DataLengthHead + column + DataLengthTail + row;
    assert s == "Error " + code + rest;
    assert s[13] == rest[3] == 'a';
    if DuplicateAt(s).Some? {
      DuplicateAtHead(s);
      assert false;
    }
  }

  /** The intended classifier reports an oversized value as a bad parameter naming the column. */
  lemma IntendedDataLengthClassified(c: MySQLErrConverter, s: string, code: string, column: string, row: string, message: string)
    requires IntendedDataLengthShape(s, code, column, row) && '\'' !in row
    ensures c.IntendedAppError(Some(Driver(s)), message)
      == Some(ErrBadParameters.WithMessage("data too long for " + column + " field"))
  {
    IntendedDataLengthExact(s, code, column, row);
    DataLengthNotDuplicate(s, code, column, row);
    IntendedDataLengthOfText(c, s, message);
  }

  /** A driver error whose text only the intended data-length pattern matches. */
  lemma IntendedDataLengthOfText(c: MySQLErrConverter, s: string, message: string)
    requires !MatchString(IntendedDuplicate, s) && MatchString(IntendedDataLength, s)
    ensures c.IntendedAppError(Some(Driver(s)), message)
      == Some(ErrBadParameters.WithMessage("data too long for " + FindStringSubmatch(IntendedDataLength, s)[2] + " field"))
  {
    assert !c.gorm.Recognizes(Driver(s));
  }

  // ---------------------------------------------------------------------------
  // Two MySQL messages

  const DuplicateSample: string :=
    "Error " + "1062" + DuplicateHead + "alice@example.com" + DuplicateSep + "idx_email" + "'"
  const DataTooLongSample: string :=
    "Error " + "1406" + DataLengthHead + "bio" + DataLengthTail + "3"

  /** As written, a duplicate-key message is an internal error, and `Field` would name the entry. */
  lemma DuplicateSampleAsWritten(message: string)
    ensures NewMySQLErrCvt().AppError(Some(Driver(DuplicateSample)), message)
      == ErrInternalServer.Wrap(Some(Driver(DuplicateSample)), UncaughtHint)
    ensures Get(Params(RegexpMySQLDuplicate, DuplicateSample), "Field") == "alice@example.com"
  {
    DuplicateFieldIsEntry(DuplicateSample, "1062", "alice@example.com", "idx_email");
  }

  /** What any match of the data-length pattern as written looks like from its start. */
  lemma DataLengthAtShape(t: string)
    requires DataLengthAt(t).Some?
    ensures |t| > 47 && t[0] == 'E' && t[38] == '\''
  {
    var head := DataLengthHead + DataLengthTail;
    assert t[0] == t[..6][0] == 'E';
    assert t[10..][..|head|] == head;
    assert t[38] == head[28];
  }

  /** As written, MySQL's data-too-long message is not matched at all: its column is not empty. */
  lemma DataTooLongSampleNotMatched()
    ensures FindStringSubmatch(RegexpMySQLDataLength, DataTooLongSample) == []
  {
    var s := DataTooLongSample;
    assert |s| == 51;
    assert s[1] == 'r' && s[2] == 'r' && s[3] == 'o' && s[38] == 'b';
    forall i | 0 <= i <= |s| ensures DataLengthAt(s[i..]).None? {
      if DataLengthAt(s[i..]).Some? {
        DataLengthAtShape(s[i..]);
        assert false;
      }
    }
  }

  /** As intended, both messages are bad parameters naming the key and the column. */
  lemma SamplesIntended(message: string)
    ensures NewMySQLErrCvt().IntendedAppError(Some(Driver(DuplicateSample)), message)
      == Some(ErrBadParameters.WithMessage("conflict duplicate " + "idx_email"))
    ensures NewMySQLErrCvt().IntendedAppError(Some(Driver(DataTooLongSample)), message)
      == Some(ErrBadParameters.WithMessage("data too long for " + "bio" + " field"))
  {
    DuplicateSampleIntended(message);
    DataTooLongSampleIntended(message);
  }

  lemma DuplicateSampleIntended(message: string)
    ensures NewMySQLErrCvt().IntendedAppError(Some(Driver(DuplicateSample)), message)
      == Some(ErrBadParameters.WithMessage("conflict duplicate " + "idx_email"))
  {
    assert DuplicateShape(DuplicateSample, "1062", "alice@example.com", "idx_email");
    IntendedDuplicateClassified(NewMySQLErrCvt(), DuplicateSample, "1062", "alice@example.com", "idx_email", message);
  }

  lemma DataTooLongSampleIntended(message: string)
    ensures NewMySQLErrCvt().IntendedAppError(Some(Driver(DataTooLongSample)), message)
      == Some(ErrBadParameters.WithMessage("data too long for " + "bio" + " field"))
  {
    assert IntendedDataLengthShape(DataTooLongSample, "1406", "bio", "3");
    IntendedDataLengthClassified(NewMySQLErrCvt(), DataTooLongSample, "1406", "bio", "3", message);
  }
}
