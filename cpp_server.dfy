/**
 * The Drogon server: the PostgreSQL connection string main() builds from the
 * environment, DataModel::toJson, and the response getData sends for the
 * query's rows or for a database error.
 */
module CppServer {
  import opened Wrappers
  import opened Backend
  import Conninfo

  /** `getenv(name) ? getenv(name) : fallback` */
  function GetenvOr(env: Env, name: string, fallback: string): (r: string)
    ensures name in env ==> r == env[name]
    ensures name !in env ==> r == fallback
  {
    if name in env then env[name] else fallback
  }

  /** The connection string exactly as main() concatenates it. */
  function ConnString(env: Env): string {
    var dbUser := GetenvOr(env, "DB_USER", "");
    var dbPassword := GetenvOr(env, "DB_PASSWORD", "");
    var dbHost := GetenvOr(env, "DB_IP", "localhost");
    var dbPort := GetenvOr(env, "DB_PORT", "5432");
    var dbName := GetenvOr(env, "DB_NAME", "");
    "host=" + dbHost + " port=" + dbPort + " dbname=" + dbName + " user=" + dbUser + " password=" + dbPassword
  }

  /** The settings main() means to pass: five keywords, environment values or their defaults. */
  function IntendedSettings(env: Env): seq<Conninfo.Pair> {
    [ ("host", GetenvOr(env, "DB_IP", "localhost")),
      ("port", GetenvOr(env, "DB_PORT", "5432")),
      ("dbname", GetenvOr(env, "DB_NAME", "")),
      ("user", GetenvOr(env, "DB_USER", "")),
      ("password", GetenvOr(env, "DB_PASSWORD", "")) ]
  }

  /** The connection string with every value quoted, so that empty values and blanks survive. */
  function QuotedConnString(env: Env): string {
    Conninfo.RenderQuoted(IntendedSettings(env))
  }

  /**
   * When the database name and user are set to bare values (and a set host,
   * port or non-empty password is bare too), the driver reads the five
   * settings in order, with "localhost" for a missing DB_IP, "5432" for a
   * missing DB_PORT and "" for a missing DB_PASSWORD: the password is written
   * last, so nothing follows an empty one.
   */
  lemma ConnStringReadBack(env: Env)
    requires "DB_IP" in env ==> Conninfo.IsBareValue(env["DB_IP"])
    requires "DB_PORT" in env ==> Conninfo.IsBareValue(env["DB_PORT"])
    requires "DB_NAME" in env && Conninfo.IsBareValue(env["DB_NAME"])
    requires "DB_USER" in env && Conninfo.IsBareValue(env["DB_USER"])
    requires "DB_PASSWORD" in env && env["DB_PASSWORD"] != "" ==> Conninfo.IsBareValue(env["DB_PASSWORD"])
    ensures Conninfo.Parse(ConnString(env)) == Some([
      ("host", if "DB_IP" in env then env["DB_IP"] else "localhost"),
      ("port", if "DB_PORT" in env then env["DB_PORT"] else "5432"),
      ("dbname", env["DB_NAME"]),
      ("user", env["DB_USER"]),
      ("password", if "DB_PASSWORD" in env then env["DB_PASSWORD"] else "")])
  {
    var h := GetenvOr(env, "DB_IP", "localhost");
    var p := GetenvOr(env, "DB_PORT", "5432");
    var pw := GetenvOr(env, "DB_PASSWORD", "");
    Conninfo.DefaultsAreBare();
    ConnStringIsRender(env);
    assert IntendedSettings(env) == [("host", h), ("port", p), ("dbname", env["DB_NAME"]), ("user", env["DB_USER"]), ("password", pw)];
    BareFiveReadBack(h, p, env["DB_NAME"], env["DB_USER"], pw);
  }

  /** Five bare settings read back as written; the last, the password, may also be empty. */
  lemma BareFiveReadBack(h: string, p: string, n: string, u: string, pw: string)
    requires Conninfo.IsBareValue(h) && Conninfo.IsBareValue(p) && Conninfo.IsBareValue(n)
    requires Conninfo.IsBareValue(u) && (pw == "" || Conninfo.IsBareValue(pw))
    ensures Conninfo.Parse(Conninfo.Render([("host", h), ("port", p), ("dbname", n), ("user", u), ("password", pw)]))
         == Some([("host", h), ("port", p), ("dbname", n), ("user", u), ("password", pw)])
  {
    var pairs := [("host", h), ("port", p), ("dbname", n), ("user", u), ("password", pw)];
    Conninfo.SettingKeywords();
    assert Conninfo.BareOrEmptyLast(pairs);
    Conninfo.RenderRoundTrip(pairs);
  }

  /**
   * With DB_NAME unset (or set to "") an empty value is written bare, and the
   * driver skips the blank after "dbname=": the database name becomes
   * "user=<DB_USER>" and no user setting remains.
   */
  lemma ConnStringWithoutDbName(env: Env)
    requires "DB_IP" in env ==> Conninfo.IsBareValue(env["DB_IP"])
    requires "DB_PORT" in env ==> Conninfo.IsBareValue(env["DB_PORT"])
    requires "DB_NAME" !in env || env["DB_NAME"] == ""
    requires "DB_USER" in env && Conninfo.IsBareValue(env["DB_USER"])
    requires "DB_PASSWORD" in env && env["DB_PASSWORD"] != "" ==> Conninfo.IsBareValue(env["DB_PASSWORD"])
    ensures Conninfo.Parse(ConnString(env)) == Some([
      ("host", if "DB_IP" in env then env["DB_IP"] else "localhost"),
      ("port", if "DB_PORT" in env then env["DB_PORT"] else "5432"),
      ("dbname", "user=" + env["DB_USER"]),
      ("password", if "DB_PASSWORD" in env then env["DB_PASSWORD"] else "")])
  {
    var h := GetenvOr(env, "DB_IP", "localhost");
    var p := GetenvOr(env, "DB_PORT", "5432");
    var pw := GetenvOr(env, "DB_PASSWORD", "");
    Conninfo.DefaultsAreBare();
    ConnStringIsRender(env);
    assert IntendedSettings(env) == [("host", h), ("port", p), ("dbname", ""), ("user", env["DB_USER"]), ("password", pw)];
    EmptyNameSwallowsUser(h, p, env["DB_USER"], pw);
  }

  /** The settings with an empty database name, as the driver reads them. */
  lemma EmptyNameSwallowsUser(h: string, p: string, u: string, pw: string)
    requires Conninfo.IsBareValue(h) && Conninfo.IsBareValue(p)
    requires Conninfo.IsBareValue(u) && (pw == "" || Conninfo.IsBareValue(pw))
    ensures Conninfo.Parse(Conninfo.Render([("host", h), ("port", p), ("dbname", ""), ("user", u), ("password", pw)]))
         == Some([("host", h), ("port", p), ("dbname", "user=" + u), ("password", pw)])
  {
    var pre, post := [("host", h), ("port", p)], [("password", pw)];
    Conninfo.SettingKeywords();
    Conninfo.DefaultsAreBare();
    assert pre + [("dbname", ""), ("user", u)] + post == [("host", h), ("port", p), ("dbname", ""), ("user", u), ("password", pw)];
    assert Conninfo.AllBare(pre) && Conninfo.BareOrEmptyLast(post);
    Conninfo.EmptyValueSwallowsNext(pre, "dbname", "user", u, post);
    assert "user" + "=" + u == "user=" + u;
    assert pre + [("dbname", "user=" + u)] + post == [("host", h), ("port", p), ("dbname", "user=" + u), ("password", pw)];
  }

  /**
   * With DB_USER unset (or set to "") an empty value is written bare as well:
   * the user becomes "password=<DB_PASSWORD>" and no password setting remains.
   */
  lemma ConnStringWithoutUser(env: Env)
    requires "DB_IP" in env ==> Conninfo.IsBareValue(env["DB_IP"])
    requires "DB_PORT" in env ==> Conninfo.IsBareValue(env["DB_PORT"])
    requires "DB_NAME" in env && Conninfo.IsBareValue(env["DB_NAME"])
    requires "DB_USER" !in env || env["DB_USER"] == ""
    requires "DB_PASSWORD" in env && env["DB_PASSWORD"] != "" ==> Conninfo.IsBareValue(env["DB_PASSWORD"])
    ensures Conninfo.Parse(ConnString(env)) == Some([
      ("host", if "DB_IP" in env then env["DB_IP"] else "localhost"),
      ("port", if "DB_PORT" in env then env["DB_PORT"] else "5432"),
      ("dbname", env["DB_NAME"]),
      ("user", "password=" + (if "DB_PASSWORD" in env then env["DB_PASSWORD"] else ""))])
  {
    var h := GetenvOr(env, "DB_IP", "localhost");
    var p := GetenvOr(env, "DB_PORT", "5432");
    var pw := GetenvOr(env, "DB_PASSWORD", "");
    Conninfo.DefaultsAreBare();
    ConnStringIsRender(env);
    assert IntendedSettings(env) == [("host", h), ("port", p), ("dbname", env["DB_NAME"]), ("user", ""), ("password", pw)];
    EmptyUserSwallowsPassword(h, p, env["DB_NAME"], pw);
  }

  /** The settings with an empty user, as the driver reads them. */
  lemma EmptyUserSwallowsPassword(h: string, p: string, n: string, pw: string)
    requires Conninfo.IsBareValue(h) && Conninfo.IsBareValue(p)
    requires Conninfo.IsBareValue(n) && (pw == "" || Conninfo.IsBareValue(pw))
    ensures Conninfo.Parse(Conninfo.Render([("host", h), ("port", p), ("dbname", n), ("user", ""), ("password", pw)]))
         == Some([("host", h), ("port", p), ("dbname", n), ("user", "password=" + pw)])
  {
    var pre: seq<Conninfo.Pair> := [("host", h), ("port", p), ("dbname", n)];
    Conninfo.SettingKeywords();
    Conninfo.DefaultsAreBare();
    assert pre + [("user", ""), ("password", pw)] + [] == [("host", h), ("port", p), ("dbname", n), ("user", ""), ("password", pw)];
    assert Conninfo.AllBare(pre) && Conninfo.BareOrEmptyLast([]);
    Conninfo.EmptyValueSwallowsNext(pre, "user", "password", pw, []);
    assert "password" + "=" + pw == "password=" + pw;
    assert pre + [("user", "password=" + pw)] + [] == [("host", h), ("port", p), ("dbname", n), ("user", "password=" + pw)];
  }

  /**
   * With DB_IP set to "" the empty host is written bare and the driver reads
   * "port=<port>" as the host name; no port setting remains.
   */
  lemma ConnStringWithEmptyHost(env: Env)
    requires "DB_IP" in env && env["DB_IP"] == ""
    requires "DB_PORT" in env ==> Conninfo.IsBareValue(env["DB_PORT"])
    requires "DB_NAME" in env && Conninfo.IsBareValue(env["DB_NAME"])
    requires "DB_USER" in env && Conninfo.IsBareValue(env["DB_USER"])
    requires "DB_PASSWORD" in env && env["DB_PASSWORD"] != "" ==> Conninfo.IsBareValue(env["DB_PASSWORD"])
    ensures Conninfo.Parse(ConnString(env)) == Some([
      ("host", "port=" + (if "DB_PORT" in env then env["DB_PORT"] else "5432")),
      ("dbname", env["DB_NAME"]),
      ("user", env["DB_USER"]),
      ("password", if "DB_PASSWORD" in env then env["DB_PASSWORD"] else "")])
  {
    var p := GetenvOr(env, "DB_PORT", "5432");
    var pw := GetenvOr(env, "DB_PASSWORD", "");
    Conninfo.DefaultsAreBare();
    ConnStringIsRender(env);
    assert IntendedSettings(env) == [("host", ""), ("port", p), ("dbname", env["DB_NAME"]), ("user", env["DB_USER"]), ("password", pw)];
    EmptyHostSwallowsPort(p, env["DB_NAME"], env["DB_USER"], pw);
  }

  /** The settings with an empty host, as the driver reads them. */
  lemma EmptyHostSwallowsPort(p: string, n: string, u: string, pw: string)
    requires Conninfo.IsBareValue(p) && Conninfo.IsBareValue(n)
    requires Conninfo.IsBareValue(u) && (pw == "" || Conninfo.IsBareValue(pw))
    ensures Conninfo.Parse(Conninfo.Render([("host", ""), ("port", p), ("dbname", n), ("user", u), ("password", pw)]))
         == Some([("host", "port=" + p), ("dbname", n), ("user", u), ("password", pw)])
  {
    var post := [("dbname", n), ("user", u), ("password", pw)];
    Conninfo.SettingKeywords();
    Conninfo.DefaultsAreBare();
    assert [("host", "")] + ([("port", p)] + post) == [("host", ""), ("port", p), ("dbname", n), ("user", u), ("password", pw)];
    assert Conninfo.BareOrEmptyLast(post);
    Conninfo.EmptyFirstSwallowsNext("host", "port", p, post);
    assert "port" + "=" + p == "port=" + p;
    assert [("host", "port=" + p)] + post == [("host", "port=" + p), ("dbname", n), ("user", u), ("password", pw)];
  }

  /** The quoted connection string reads back as the intended settings, whatever the environment holds. */
  lemma QuotedConnStringReadBack(env: Env)
    ensures Conninfo.Parse(QuotedConnString(env)) == Some([
      ("host", if "DB_IP" in env then env["DB_IP"] else "localhost"),
      ("port", if "DB_PORT" in env then env["DB_PORT"] else "5432"),
      ("dbname", if "DB_NAME" in env then env["DB_NAME"] else ""),
      ("user", if "DB_USER" in env then env["DB_USER"] else ""),
      ("password", if "DB_PASSWORD" in env then env["DB_PASSWORD"] else "")])
  {
    QuotedFiveReadBack(GetenvOr(env, "DB_IP", "localhost"), GetenvOr(env, "DB_PORT", "5432"),
      GetenvOr(env, "DB_NAME", ""), GetenvOr(env, "DB_USER", ""), GetenvOr(env, "DB_PASSWORD", ""));
  }

  lemma QuotedFiveReadBack(h: string, p: string, n: string, u: string, pw: string)
    ensures Conninfo.Parse(Conninfo.RenderQuoted([("host", h), ("port", p), ("dbname", n), ("user", u), ("password", pw)]))
         == Some([("host", h), ("port", p), ("dbname", n), ("user", u), ("password", pw)])
  {
    var pairs := [("host", h), ("port", p), ("dbname", n), ("user", u), ("password", pw)];
    Conninfo.SettingKeywords();
    assert forall i :: 0 <= i < |pairs| ==> Conninfo.IsKeyword(pairs[i].0);
    Conninfo.RenderQuotedRoundTrip(pairs);
  }

  /** main()'s concatenation is the bare rendering of the intended settings. */
  lemma ConnStringIsRender(env: Env)
    ensures ConnString(env) == Conninfo.Render(IntendedSettings(env))
  {
    var pairs := IntendedSettings(env);
    FiveSettingsRender(pairs[0].1, pairs[1].1, pairs[2].1, pairs[3].1, pairs[4].1);
  }

  lemma FiveSettingsRender(h: string, p: string, n: string, u: string, pw: string)
    ensures "host=" + h + " port=" + p + " dbname=" + n + " user=" + u + " password=" + pw
         == Conninfo.Render([("host", h), ("port", p), ("dbname", n), ("user", u), ("password", pw)])
  {
    var q4 := [("password", pw)];
    var q3 := [("user", u)] + q4;
    var q2 := [("dbname", n)] + q3;
    var q1 := [("port", p)] + q2;
    assert [("host", h)] + q1 == [("host", h), ("port", p), ("dbname", n), ("user", u), ("password", pw)];
    // Each ` k=v...` suffix of the string is a blank before the rendering of the remaining settings.
    var t4 := " password=" + pw;
    Conninfo.RenderLast(" password=", "password", pw);
    var t3 := " user=" + u + t4;
    Conninfo.RenderStep(" user=", "user", u, q4, t4);
    var t2 := " dbname=" + n + t3;
    Conninfo.RenderStep(" dbname=", "dbname", n, q3, t3);
    var t1 := " port=" + p + t2;
    Conninfo.RenderStep(" port=", "port", p, q2, t2);
    Conninfo.RenderCons("host", h, q1);
    FiveGlue(h, p, n, u, pw);
  }

  /** main()'s left-to-right concatenation, grouped from the right. */
  lemma FiveGlue(h: string, p: string, n: string, u: string, pw: string)
    ensures "host=" + h + " port=" + p + " dbname=" + n + " user=" + u + " password=" + pw
         == "host" + "=" + h + (" port=" + p + (" dbname=" + n + (" user=" + u + (" password=" + pw))))
  {
    var a1 := "host=" + h;
    var a2 := a1 + " port=" + p;
    var a3 := a2 + " dbname=" + n;
    Conninfo.Regroup(a3, " user=", u, " password=" + pw);
    Conninfo.Regroup(a2, " dbname=", n, " user=" + u + (" password=" + pw));
    Conninfo.Regroup(a1, " port=", p, " dbname=" + n + (" user=" + u + (" password=" + pw)));
  }

  // ---------------------------------------------------------------------------
  // getData

  /** One row as the controller holds it. */
  datatype DataModel = DataModel(field1: string, field2: Int32)
  {
    /** The JSON object `{"field1": ..., "field2": ...}` a client reads back as the same row. */
    function ToJson(): (j: Json)
      ensures j.Object? && j.members.Keys == {"field1", "field2"}
      ensures DecodeRecord(j) == Some(Row(field1, field2))
    {
      Object(map["field1" := Str(field1), "field2" := Number(field2)])
    }
  }

  /**
   * jsoncpp's `Value::append`: a null value first turns into an empty array,
   * an array gets the element at its end.
   */
  function Append(arr: Json, v: Json): (r: Json)
    requires arr.Null? || arr.Array?
    ensures r.Array? && |r.items| == (if arr.Null? then 0 else |arr.items|) + 1
    ensures r.items[|r.items| - 1] == v
    ensures arr.Array? ==> r.items[..|arr.items|] == arr.items
  {
    if arr.Null? then Array([v]) else Array(arr.items + [v])
  }

  /**
   * The success callback: every row becomes a record appended to a JSON value
   * that starts out null, and that value is sent with status 200. With no
   * rows the body stays null; otherwise it is an array that reads back as
   * the rows, in order.
   */
  method RowsResponse(rows: seq<Row>) returns (resp: Response)
    ensures resp.status == StatusOk && resp.body.JsonBody?
    ensures rows == [] ==> resp.body.json == Null
    ensures rows != [] ==> resp.body.json.Array? && DecodeRecords(resp.body.json.items) == Some(rows)
  {
    var jsonArray := Null;
    for i := 0 to |rows|
      invariant i == 0 ==> jsonArray == Null
      invariant i > 0 ==> jsonArray.Array? && |jsonArray.items| == i
      invariant i > 0 ==> forall k :: 0 <= k < i ==> DecodeRecord(jsonArray.items[k]) == Some(rows[k])
    {
      var data := DataModel(rows[i].field1, rows[i].field2);
      jsonArray := Append(jsonArray, data.ToJson());
    }
    if rows != [] {
      DecodeRecordsEach(jsonArray.items, rows);
    }
    resp := Response(StatusOk, JsonBody(jsonArray));
  }

  /**
   * GET /api/test1: the rows as JSON with status 200, or, when the query
   * fails, status 500 with the plain-text body "Database error".
   */
  method GetData(q: QueryResult) returns (resp: Response)
    ensures q.DbError? ==> resp == Response(StatusInternalServerError, TextBody("Database error"))
    ensures q.Rows? ==> resp.status == StatusOk && resp.body.JsonBody?
    ensures q.Rows? && q.rows == [] ==> resp.body.json == Null
    ensures q.Rows? && q.rows != [] ==> resp.body.json.Array? && DecodeRecords(resp.body.json.items) == Some(q.rows)
  {
    match q
    case Rows(rows) =>
      resp := RowsResponse(rows);
    case DbError(_) =>
      resp := Response(StatusInternalServerError, TextBody("Database error"));
  }
}
