/**
 * The Fiber server: the DSN initDB formats from the environment and the
 * handler getTestData, which answers with the query's rows or with the
 * driver's error message.
 */
module GoServer {
  import opened Wrappers
  import opened Backend
  import Conninfo

  // ---------------------------------------------------------------------------
  // The DSN

  /** `os.Getenv`: the value, or "" for an unset variable. */
  function Getenv(env: Env, name: string): (r: string)
    ensures name in env ==> r == env[name]
    ensures name !in env ==> r == ""
  {
    if name in env then env[name] else ""
  }

  /** DB_SSLMODE, with "disable" for an unset or empty variable: never empty. */
  function Sslmode(env: Env): (r: string)
    ensures r != ""
    ensures Getenv(env, "DB_SSLMODE") != "" ==> r == env["DB_SSLMODE"]
    ensures Getenv(env, "DB_SSLMODE") == "" ==> r == "disable"
  {
    var sslmode := Getenv(env, "DB_SSLMODE");
    if sslmode == "" then "disable" else sslmode
  }

  /** The DSN exactly as `fmt.Sprintf` writes it. */
  function Dsn(env: Env): string {
    "host=" + Getenv(env, "DB_IP") + " user=" + Getenv(env, "DB_USER")
      + " password=" + Getenv(env, "DB_PASSWORD") + " dbname=" + Getenv(env, "DB_NAME")
      + " port=" + Getenv(env, "DB_PORT") + " sslmode=" + Sslmode(env)
  }

  /** The settings initDB means to pass, in the order it writes them. */
  function IntendedSettings(env: Env): seq<Conninfo.Pair> {
    [ ("host", Getenv(env, "DB_IP")),
      ("user", Getenv(env, "DB_USER")),
      ("password", Getenv(env, "DB_PASSWORD")),
      ("dbname", Getenv(env, "DB_NAME")),
      ("port", Getenv(env, "DB_PORT")),
      ("sslmode", Sslmode(env)) ]
  }

  /** The DSN with every value quoted, so that empty values survive. */
  function QuotedDsn(env: Env): string {
    Conninfo.RenderQuoted(IntendedSettings(env))
  }

  lemma SixSettingsRender(h: string, u: string, pw: string, n: string, p: string, m: string)
    ensures "host=" + h + " user=" + u + " password=" + pw + " dbname=" + n + " port=" + p + " sslmode=" + m
         == Conninfo.Render([("host", h), ("user", u), ("password", pw), ("dbname", n), ("port", p), ("sslmode", m)])
  {
    var q5 := [("sslmode", m)];
    var q4 := [("port", p)] + q5;
    var q3 := [("dbname", n)] + q4;
    var q2 := [("password", pw)] + q3;
    var q1 := [("user", u)] + q2;
    assert [("host", h)] + q1 == [("host", h), ("user", u), ("password", pw), ("dbname", n), ("port", p), ("sslmode", m)];
    // Each ` k=v...` suffix of the DSN is a blank before the rendering of the remaining settings.
    var t5 := " sslmode=" + m;
    Conninfo.RenderLast(" sslmode=", "sslmode", m);
    var t4 := " port=" + p + t5;
    Conninfo.RenderStep(" port=", "port", p, q5, t5);
    var t3 := " dbname=" + n + t4;
    Conninfo.RenderStep(" dbname=", "dbname", n, q4, t4);
    var t2 := " password=" + pw + t3;
    Conninfo.RenderStep(" password=", "password", pw, q3, t3);
    var t1 := " user=" + u + t2;
    Conninfo.RenderStep(" user=", "user", u, q2, t2);
    Conninfo.RenderCons("host", h, q1);
    SixGlue(h, u, pw, n, p, m);
  }

  /** The DSN's left-to-right concatenation, grouped from the right. */
  lemma SixGlue(h: string, u: string, pw: string, n: string, p: string, m: string)
    ensures "host=" + h + " user=" + u + " password=" + pw + " dbname=" + n + " port=" + p + " sslmode=" + m
         == "host" + "=" + h + (" user=" + u + (" password=" + pw + (" dbname=" + n + (" port=" + p + (" sslmode=" + m)))))
  {
    var a1 := "host=" + h;
    var a2 := a1 + " user=" + u;
    var a3 := a2 + " password=" + pw;
    var a4 := a3 + " dbname=" + n;
    Conninfo.Regroup(a4, " port=", p, " sslmode=" + m);
    Conninfo.Regroup(a3, " dbname=", n, " port=" + p + (" sslmode=" + m));
    Conninfo.Regroup(a2, " password=", pw, " dbname=" + n + (" port=" + p + (" sslmode=" + m)));
    Conninfo.Regroup(a1, " user=", u, " password=" + pw + (" dbname=" + n + (" port=" + p + (" sslmode=" + m))));
  }

  /** The DSN is the bare rendering of the intended settings. */
  lemma DsnIsRender(env: Env)
    ensures Dsn(env) == Conninfo.Render(IntendedSettings(env))
  {
    var pairs := IntendedSettings(env);
    SixSettingsRender(pairs[0].1, pairs[1].1, pairs[2].1, pairs[3].1, pairs[4].1, pairs[5].1);
  }

  /**
   * When every variable the DSN names is set to a bare value (DB_SSLMODE may
   * be unset or empty), the driver reads the six settings in order.
   */
  lemma DsnReadBack(env: Env)
    requires "DB_IP" in env && Conninfo.IsBareValue(env["DB_IP"])
    requires "DB_USER" in env && Conninfo.IsBareValue(env["DB_USER"])
    requires "DB_PASSWORD" in env && Conninfo.IsBareValue(env["DB_PASSWORD"])
    requires "DB_NAME" in env && Conninfo.IsBareValue(env["DB_NAME"])
    requires "DB_PORT" in env && Conninfo.IsBareValue(env["DB_PORT"])
    requires "DB_SSLMODE" in env && env["DB_SSLMODE"] != "" ==> Conninfo.IsBareValue(env["DB_SSLMODE"])
    ensures Conninfo.Parse(Dsn(env)) == Some([
      ("host", env["DB_IP"]), ("user", env["DB_USER"]), ("password", env["DB_PASSWORD"]),
      ("dbname", env["DB_NAME"]), ("port", env["DB_PORT"]),
      ("sslmode", if "DB_SSLMODE" in env && env["DB_SSLMODE"] != "" then env["DB_SSLMODE"] else "disable")])
  {
    var pairs := IntendedSettings(env);
    DsnIsRender(env);
    Conninfo.SettingKeywords();
    Conninfo.DefaultsAreBare();
    assert forall i :: 0 <= i < |pairs| ==> Conninfo.IsKeyword(pairs[i].0) && Conninfo.IsBareValue(pairs[i].1);
    Conninfo.RenderRoundTrip(pairs);
  }

  /**
   * With DB_IP unset (or set to "") an empty value is written bare, and the driver skips the blank
   * after "host=": the host becomes "user=<DB_USER>" and no user setting
   * remains.
   */
  lemma DsnWithoutHost(env: Env)
    requires "DB_IP" !in env || env["DB_IP"] == ""
    requires "DB_USER" in env && Conninfo.IsBareValue(env["DB_USER"])
    requires "DB_PASSWORD" in env && Conninfo.IsBareValue(env["DB_PASSWORD"])
    requires "DB_NAME" in env && Conninfo.IsBareValue(env["DB_NAME"])
    requires "DB_PORT" in env && Conninfo.IsBareValue(env["DB_PORT"])
    requires "DB_SSLMODE" !in env
    ensures Conninfo.Parse(Dsn(env)) == Some([
      ("host", "user=" + env["DB_USER"]), ("password", env["DB_PASSWORD"]),
      ("dbname", env["DB_NAME"]), ("port", env["DB_PORT"]), ("sslmode", "disable")])
  {
    DsnIsRender(env);
    assert IntendedSettings(env) == [("host", ""), ("user", env["DB_USER"]), ("password", env["DB_PASSWORD"]),
                                     ("dbname", env["DB_NAME"]), ("port", env["DB_PORT"]), ("sslmode", "disable")];
    EmptyHostSwallowsUser(env["DB_USER"], env["DB_PASSWORD"], env["DB_NAME"], env["DB_PORT"]);
  }

  /** The settings with an empty host and sslmode "disable", as the driver reads them. */
  lemma EmptyHostSwallowsUser(u: string, pw: string, n: string, p: string)
    requires Conninfo.IsBareValue(u) && Conninfo.IsBareValue(pw)
    requires Conninfo.IsBareValue(n) && Conninfo.IsBareValue(p)
    ensures Conninfo.Parse(Conninfo.Render([("host", ""), ("user", u), ("password", pw), ("dbname", n), ("port", p), ("sslmode", "disable")]))
         == Some([("host", "user=" + u), ("password", pw), ("dbname", n), ("port", p), ("sslmode", "disable")])
  {
    var post := [("password", pw), ("dbname", n), ("port", p), ("sslmode", "disable")];
    Conninfo.SettingKeywords();
    assert [] + [("host", ""), ("user", u)] + post == [("host", ""), ("user", u), ("password", pw), ("dbname", n), ("port", p), ("sslmode", "disable")];
    Conninfo.DefaultsAreBare();
    assert Conninfo.AllBare(post);
    Conninfo.EmptyValueSwallowsNext([], "host", "user", u, post);
    assert "user" + "=" + u == "user=" + u;
    assert [] + [("host", "user=" + u)] + post == [("host", "user=" + u), ("password", pw), ("dbname", n), ("port", p), ("sslmode", "disable")];
  }

  /** The quoted DSN reads back as the intended settings, whatever the environment holds. */
  lemma QuotedDsnReadBack(env: Env)
    ensures Conninfo.Parse(QuotedDsn(env)) == Some([
      ("host", if "DB_IP" in env then env["DB_IP"] else ""),
      ("user", if "DB_USER" in env then env["DB_USER"] else ""),
      ("password", if "DB_PASSWORD" in env then env["DB_PASSWORD"] else ""),
      ("dbname", if "DB_NAME" in env then env["DB_NAME"] else ""),
      ("port", if "DB_PORT" in env then env["DB_PORT"] else ""),
      ("sslmode", if "DB_SSLMODE" in env && env["DB_SSLMODE"] != "" then env["DB_SSLMODE"] else "disable")])
  {
    Conninfo.SettingKeywords();
    Conninfo.RenderQuotedRoundTrip(IntendedSettings(env));
  }

  // ---------------------------------------------------------------------------
  // getTestData

  /** The JSON encoding of one `Data` record. */
  function Marshal(d: Row): (j: Json)
    ensures DecodeRecord(j) == Some(d)
  {
    Object(map["field1" := Str(d.field1), "field2" := Number(d.field2)])
  }

  /**
   * GET /api/test1: status 500 with `{"error": <message>}` when the query
   * fails, otherwise status 200. With no rows `results` stays a nil slice,
   * which is written as `null`; otherwise the body is a JSON array that reads
   * back as the rows.
   */
  function GetTestData(q: QueryResult): (resp: Response)
    ensures q.DbError? ==> resp == Response(StatusInternalServerError, JsonBody(Object(map["error" := Str(q.message)])))
    ensures q.Rows? ==> resp.status == StatusOk && resp.body.JsonBody?
    ensures q.Rows? && q.rows == [] ==> resp.body.json == Null
    ensures q.Rows? && q.rows != [] ==> resp.body.json.Array? && DecodeRecords(resp.body.json.items) == Some(q.rows)
  {
    match q
    case DbError(message) =>
      Response(StatusInternalServerError, JsonBody(Object(map["error" := Str(message)])))
    case Rows(rows) =>
      if rows == [] then Response(StatusOk, JsonBody(Null))
      else
        var items := seq(|rows|, i requires 0 <= i < |rows| => Marshal(rows[i]));
        DecodeRecordsEach(items, rows);
        Response(StatusOk, JsonBody(Array(items)))
  }
}
