/** The shared part of every repository: resolving the database location into
    a connection string, and the two defensive decoders for integer columns.
    The environment variable and the configuration entry are passed in as
    values instead of being read from the process. */
module BaseRepository {
  import opened Wrappers
  import opened SqlValues
  import opened Conversion
  import A = Attributes

  /** `Char.IsWhiteSpace`: the Unicode white-space characters. */
  predicate IsWhiteSpace(c: char) {
    var n := c as int;
    || n == 0x20 || 0x09 <= n <= 0x0D || n == 0x85 || n == 0xA0 || n == 0x1680
    || 0x2000 <= n <= 0x200A || n == 0x2028 || n == 0x2029 || n == 0x202F
    || n == 0x205F || n == 0x3000
  }

  /** `string.IsNullOrWhiteSpace`. */
  predicate IsNullOrWhiteSpace(s: Option<string>) {
    s.None? || forall i :: 0 <= i < |s.value| ==> IsWhiteSpace(s.value[i])
  }

  /** On ASCII, `Char.IsWhiteSpace` accepts exactly the characters that
      `Int32.Parse` skips: tab to carriage return and the space. Beyond ASCII
      it accepts more, such as the no-break space. */
  lemma AsciiWhiteSpace(c: char)
    ensures IsParseWhite(c) ==> IsWhiteSpace(c)
    ensures c as int < 0x80 ==> (IsWhiteSpace(c) <==> IsParseWhite(c))
    ensures IsWhiteSpace('\U{A0}') && !IsParseWhite('\U{A0}')
  {
  }

  /** Blankness splits over concatenation: a text is null-or-white-space
      exactly when both of its parts are, and the empty text is blank. */
  lemma BlankConcat(a: string, b: string)
    ensures IsNullOrWhiteSpace(Some(""))
    ensures IsNullOrWhiteSpace(Some(a + b)) <==> IsNullOrWhiteSpace(Some(a)) && IsNullOrWhiteSpace(Some(b))
  {
    if IsNullOrWhiteSpace(Some(a + b)) {
      forall i | 0 <= i < |a| ensures IsWhiteSpace(a[i]) {
        assert (a + b)[i] == a[i];
      }
      forall i | 0 <= i < |b| ensures IsWhiteSpace(b[i]) {
        assert (a + b)[|a| + i] == b[i];
      }
    }
  }

  const DATA_SOURCE_PREFIX: string := "Data Source="

  /** The exception the constructor throws when no database path is set. */
  datatype ConfigError = InvalidOperation(message: string)

  /** The SQLite connection string naming the database file `path`. */
  function ConnectionString(path: string): (cs: string)
    ensures |cs| == |DATA_SOURCE_PREFIX| + |path|
    ensures cs[..|DATA_SOURCE_PREFIX|] == DATA_SOURCE_PREFIX
  {
    DATA_SOURCE_PREFIX + path
  }

  /** The database path a connection string names (the inverse of
      `ConnectionString`). */
  function DataSourcePath(cs: string): (path: Option<string>)
    ensures path.Some? ==> ConnectionString(path.value) == cs
  {
    if |cs| >= |DATA_SOURCE_PREFIX| && cs[..|DATA_SOURCE_PREFIX|] == DATA_SOURCE_PREFIX
    then Some(cs[|DATA_SOURCE_PREFIX|..])
    else None
  }

  lemma DataSourcePathOfConnectionString(path: string)
    ensures DataSourcePath(ConnectionString(path)) == Some(path)
  {
    assert ConnectionString(path)[|DATA_SOURCE_PREFIX|..] == path;
  }

  /** The constructor: `DATABASE_PATH` (`env`) is used unless it is null or
      blank, and only then is the `DatabasePath` configuration entry
      (`config`, null when the entry or the configuration itself is missing)
      consulted. If both are null or blank construction throws. */
  function ResolveConnectionString(env: Option<string>, config: Option<string>): (r: Result<string, ConfigError>)
    ensures r.Failure? <==> IsNullOrWhiteSpace(env) && IsNullOrWhiteSpace(config)
    ensures r.Failure? ==> r.error == InvalidOperation("Invalid database path.")
    ensures !IsNullOrWhiteSpace(env) ==> r == Success(ConnectionString(env.value))
    ensures IsNullOrWhiteSpace(env) && !IsNullOrWhiteSpace(config) ==> r == Success(ConnectionString(config.value))
  {
    var dbPath := if IsNullOrWhiteSpace(env) then config else env;
    if IsNullOrWhiteSpace(dbPath) then Failure(InvalidOperation("Invalid database path."))
    else Success(ConnectionString(dbPath.value))
  }

  /** A usable environment value makes the configuration irrelevant. */
  lemma EnvironmentWins(env: Option<string>, config1: Option<string>, config2: Option<string>)
    requires !IsNullOrWhiteSpace(env)
    ensures ResolveConnectionString(env, config1) == ResolveConnectionString(env, config2)
    ensures DataSourcePath(ResolveConnectionString(env, config1).value) == env
  {
    DataSourcePathOfConnectionString(env.value);
  }

  /** `IntToBaseAttribute`: a raw column value to an attribute. Null, a value
      `Convert.ToInt32` rejects, and a number no member carries all give
      `None`; a number some member carries gives that member. It never throws. */
  function IntToBaseAttribute(l: A.Layout, raw: DbValue): (a: A.AttributeType)
    requires A.ValidLayout(l)
    ensures A.IsMember(l, a)
    ensures raw.Null? ==> a == A.None
    ensures ToInt32(raw).None? ==> a == A.None
    ensures ToInt32(raw).Some? && !A.IsDefined(l, ToInt32(raw).value) ==> a == A.None
    ensures !raw.Null? && ToInt32(raw).Some? && A.IsDefined(l, ToInt32(raw).value) ==>
              A.ToInt(l, a) == ToInt32(raw).value
  {
    if raw.Null? then A.None
    else
      var intVal := match ToInt32(raw)
        case Some(n) => n
        case None => A.ToInt(l, A.None);
      match A.FromInt(l, intVal)
      case Some(m) => m
      case None => A.None
  }

  /** Every member survives being stored as its number, as an integer or as
      its decimal text. */
  lemma IntToBaseAttributeRoundTrip(l: A.Layout, a: A.AttributeType)
    requires A.ValidLayout(l) && A.IsMember(l, a)
    ensures IntToBaseAttribute(l, Integer(A.ToInt(l, a))) == a
    ensures IntToBaseAttribute(l, Text(FormatInt(A.ToInt(l, a)))) == a
  {
    A.FromToInt(l, a);
    TextConvertsLikeInteger(A.ToInt(l, a));
    A.ToIntInjective(l, IntToBaseAttribute(l, Integer(A.ToInt(l, a))), a);
    A.ToIntInjective(l, IntToBaseAttribute(l, Text(FormatInt(A.ToInt(l, a)))), a);
  }

  /** `IntToBool`: a raw column value to a flag. Null and a value
      `Convert.ToInt32` rejects give false; a convertible value is true exactly
      when it is nonzero. It never throws. */
  function IntToBool(raw: DbValue): (b: bool)
    ensures raw.Null? ==> !b
    ensures raw.Integer? ==> (b <==> InInt32(raw.i) && raw.i != 0)
    ensures ToInt32(raw).None? ==> !b
    ensures raw.Text? && ParseInt32(raw.s).Some? ==> (b <==> ParseInt32(raw.s).value != 0)
  {
    if raw.Null? then false
    else
      match ToInt32(raw)
      case Some(intVal) => intVal != 0
      case None => false
  }

  /** A number and its decimal text decode to the same flag, and storing a flag
      as 1 or 0 reads it back unchanged. */
  lemma IntToBoolRoundTrip(n: int, flag: bool)
    ensures IntToBool(Text(FormatInt(n))) == IntToBool(Integer(n))
    ensures IntToBool(Integer(if flag then 1 else 0)) == flag
  {
    TextConvertsLikeInteger(n);
  }
}
