/** Configuration of internal/config/config.go, read from an environment given as a map;
    a variable missing from the map reads as "" like os.Getenv. */
module Config {

  type Env = map<string, string>

  datatype Settings = Settings(port: string, databaseURL: string, jwtSecret: string)

  const DsnOptions: string := "?parseTime=true&loc=Local&charset=utf8mb4"

  /** An empty variable counts as unset. */
  function GetEnv(env: Env, key: string, default: string): (r: string)
    ensures key in env && env[key] != "" ==> r == env[key]
    ensures key !in env || env[key] == "" ==> r == default
    ensures default != "" ==> r != ""
  {
    var value := if key in env then env[key] else "";
    if value != "" then value else default
  }

  /** A MySQL data source name with a password. */
  function Dsn(user: string, password: string, host: string, port: string, dbname: string): string
  {
    user + ":" + password + "@tcp(" + host + ":" + port + ")/" + dbname + DsnOptions
  }

  /** The MySQL data source name; its first branch, a DSN without a password, is dead. */
  function BuildDatabaseURL(env: Env): string
  {
    var user := GetEnv(env, "DB_USER", "softeng_app");
    var password := GetEnv(env, "DB_PASSWORD", "123456");
    var host := GetEnv(env, "DB_HOST", "127.0.0.1");
    var port := GetEnv(env, "DB_PORT", "3306");
    var dbname := GetEnv(env, "DB_NAME", "softeng");
    if password == "" then user + "@tcp(" + host + ":" + port + ")/" + dbname + DsnOptions
    else Dsn(user, password, host, port, dbname)
  }

  /** The DSN always carries a password: the default "123456" is not empty. */
  lemma DatabaseURLHasPassword(env: Env)
    ensures
      var password := GetEnv(env, "DB_PASSWORD", "123456");
      && password != ""
      && BuildDatabaseURL(env) == Dsn(GetEnv(env, "DB_USER", "softeng_app"), password, GetEnv(env, "DB_HOST", "127.0.0.1"),
                                      GetEnv(env, "DB_PORT", "3306"), GetEnv(env, "DB_NAME", "softeng"))
  {
  }

  function LoadConfig(env: Env): (c: Settings)
    ensures c.port == GetEnv(env, "PORT", "8080") && c.jwtSecret == GetEnv(env, "JWT_SECRET", "your-secret-key")
    ensures c.port != "" && c.jwtSecret != ""
    ensures c.databaseURL == BuildDatabaseURL(env)
  {
    Settings(GetEnv(env, "PORT", "8080"), BuildDatabaseURL(env), GetEnv(env, "JWT_SECRET", "your-secret-key"))
  }

  /** The local-development defaults. */
  lemma DefaultSettings()
    ensures LoadConfig(map[]) == Settings("8080", Dsn("softeng_app", "123456", "127.0.0.1", "3306", "softeng"), "your-secret-key")
  {
    var env: Env := map[];
    assert GetEnv(env, "DB_PASSWORD", "123456") == "123456";
  }

  /** A set, non-empty PORT or JWT_SECRET is used verbatim. */
  lemma LoadConfigOverrides(env: Env, port: string, secret: string)
    requires port != "" && secret != ""
    ensures LoadConfig(env["PORT" := port]).port == port
    ensures LoadConfig(env["JWT_SECRET" := secret]).jwtSecret == secret
  {
  }
}
