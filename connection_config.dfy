/**
 * `get_connection_config` of `db/schema.py`: the MySQL connection settings, taken from the
 * command line and completed from the `[mysql]` section of a configuration file. Reading
 * the file is outside the model: its `[mysql]` section arrives as an optional map from keys
 * to the text of their values.
 */
module ConnectionConfig {
  import opened Wrappers

  /** The command-line values; `None` is an option that was not given. */
  datatype Args = Args(
    host: Option<string>,
    user: Option<string>,
    password: Option<string>,
    database: Option<string>,
    port: Option<int>)

  /** The dictionary returned: always exactly these five keys, some possibly `None`. */
  datatype Config = Config(
    host: Option<string>,
    user: Option<string>,
    password: Option<string>,
    database: Option<string>,
    port: Option<int>)

  const DefaultHost: string := "localhost"
  const DefaultPort: int := 3306

  /** Python truthiness of an optional string: present and not empty. */
  predicate Truthy(s: Option<string>)
  {
    s.Some? && |s.value| > 0
  }

  /** Python truthiness of an optional integer: present and not zero. */
  predicate TruthyPort(p: Option<int>)
  {
    p.Some? && p.value != 0
  }

  /** `x or y`: `x` when it is truthy, otherwise `y`. */
  function Or(x: Option<string>, y: Option<string>): Option<string>
  {
    if Truthy(x) then x else y
  }

  /** The configuration made of the command-line values alone. */
  function FromArgs(args: Args): Config
  {
    Config(args.host, args.user, args.password, args.database, args.port)
  }

  /** `section.get(key)` and `section.get(key, fallback)`. */
  function Get(section: map<string, string>, key: string): Option<string>
  {
    if key in section then Some(section[key]) else None
  }

  function GetOr(section: map<string, string>, key: string, fallback: string): string
  {
    if key in section then section[key] else fallback
  }

  predicate IsDigit(c: char)
  {
    '0' <= c <= '9'
  }

  predicate AllDigits(s: string)
  {
    forall i :: 0 <= i < |s| ==> IsDigit(s[i])
  }

  /** The value of a string of decimal digits, most significant first. */
  function DigitsValue(s: string): (n: nat)
    requires AllDigits(s)
    decreases |s|
  {
    if |s| == 0 then 0
    else DigitsValue(s[..|s| - 1]) * 10 + (s[|s| - 1] as int - '0' as int)
  }

  /**
   * `int(text)`: an optional sign followed by at least one decimal digit; anything else is
   * a `ValueError`, here `None`.
   */
  function ParseInt(s: string): (r: Option<int>)
    ensures r.Some? <==> (|s| > 0 && AllDigits(s)) || (|s| > 1 && (s[0] == '-' || s[0] == '+') && AllDigits(s[1..]))
  {
    if |s| > 0 && AllDigits(s) then Some(DigitsValue(s))
    else if |s| > 1 && s[0] == '-' && AllDigits(s[1..]) then Some(-(DigitsValue(s[1..]) as int))
    else if |s| > 1 && s[0] == '+' && AllDigits(s[1..]) then Some(DigitsValue(s[1..]))
    else None
  }

  /** `section.getint(key, fallback)`: the fallback when the key is absent, else `int` of its text. */
  function GetInt(section: map<string, string>, key: string, fallback: int): Option<int>
  {
    if key in section then ParseInt(section[key]) else Some(fallback)
  }

  /**
   * `get_connection_config(args)`, with `section` the `[mysql]` section of the file, if the
   * file has one. `None` is the `ValueError` of a port that is not an integer; it can only
   * arise when the command line gives no port. A value given on the command line always
   * wins, whatever the file says.
   */
  function GetConnectionConfig(args: Args, section: Option<map<string, string>>): (r: Option<Config>)
    ensures r.Some? ==>
      && (Truthy(args.host) ==> r.value.host == args.host)
      && (Truthy(args.user) ==> r.value.user == args.user)
      && (Truthy(args.password) ==> r.value.password == args.password)
      && (Truthy(args.database) ==> r.value.database == args.database)
      && (TruthyPort(args.port) ==> r.value.port == args.port)
  {
    if Truthy(args.host) && Truthy(args.user) && Truthy(args.password) && Truthy(args.database) then
      Some(FromArgs(args))
    else if section.None? then
      Some(FromArgs(args))
    else
      var m := section.value;
      var port := if TruthyPort(args.port) then args.port else GetInt(m, "port", DefaultPort);
      if port.None? then None
      else
        Some(Config(
          Or(args.host, Some(GetOr(m, "host", DefaultHost))),
          Or(args.user, Get(m, "user")),
          Or(args.password, Get(m, "password")),
          Or(args.database, Get(m, "database")),
          port))
  }

  /** When the command line gives all four of host, user, password and database, it is used as is. */
  lemma AllGivenUsesArgs(args: Args, section: Option<map<string, string>>)
    requires Truthy(args.host) && Truthy(args.user) && Truthy(args.password) && Truthy(args.database)
    ensures GetConnectionConfig(args, section) == Some(FromArgs(args))
  {
  }

  /** Without a `[mysql]` section the command-line values are used as they are. */
  lemma NoSectionUsesArgs(args: Args)
    ensures GetConnectionConfig(args, None) == Some(FromArgs(args))
  {
  }

  /**
   * When the command line leaves one of the four out and there is a `[mysql]` section, every
   * value the command line leaves out (or gives empty) comes from the section: `host` falls
   * back to `localhost` and `port` to 3306 only when the key is absent.
   */
  lemma SectionFillsGaps(args: Args, m: map<string, string>)
    requires !(Truthy(args.host) && Truthy(args.user) && Truthy(args.password) && Truthy(args.database))
    requires GetConnectionConfig(args, Some(m)).Some?
    ensures var c := GetConnectionConfig(args, Some(m)).value;
      && (!Truthy(args.host) ==> c.host == Some(if "host" in m then m["host"] else DefaultHost))
      && (!Truthy(args.user) ==> c.user == (if "user" in m then Some(m["user"]) else None))
      && (!Truthy(args.password) ==> c.password == (if "password" in m then Some(m["password"]) else None))
      && (!Truthy(args.database) ==> c.database == (if "database" in m then Some(m["database"]) else None))
      && (!TruthyPort(args.port) && "port" !in m ==> c.port == Some(DefaultPort))
      && (!TruthyPort(args.port) && "port" in m ==> c.port == ParseInt(m["port"]))
  {
  }

  /**
   * The call fails exactly when the file is consulted, the command line gives no port, and
   * the section's `port` is not an integer.
   */
  lemma FailsOnlyOnBadPort(args: Args, section: Option<map<string, string>>)
    ensures GetConnectionConfig(args, section).None? <==>
      && !(Truthy(args.host) && Truthy(args.user) && Truthy(args.password) && Truthy(args.database))
      && section.Some? && !TruthyPort(args.port)
      && "port" in section.value && ParseInt(section.value["port"]).None?
  {
  }

  /** The decimal digits of a natural number, most significant first, without leading zeros. */
  function ShowNat(n: nat): (s: string)
    ensures |s| > 0 && AllDigits(s)
    decreases n
  {
    var last := ['0' + ((n % 10) as char)];
    if n < 10 then last else ShowNat(n / 10) + last
  }

  /** The decimal text of an integer, with a `-` for a negative one. */
  function ShowInt(i: int): string
  {
    if i < 0 then "-" + ShowNat(-i) else ShowNat(i)
  }

  /** Reading back the digits of a number gives the number. */
  lemma {:induction false} DigitsOfShowNat(n: nat)
    ensures DigitsValue(ShowNat(n)) == n
    decreases n
  {
    var s := ShowNat(n);
    if n >= 10 {
      DigitsOfShowNat(n / 10);
      assert s[..|s| - 1] == ShowNat(n / 10);
    }
  }

  /** `int(str(i)) == i`: every integer's decimal text is read back as the integer. */
  lemma ParseShowInt(i: int)
    ensures ParseInt(ShowInt(i)) == Some(i)
  {
    if i < 0 {
      var s := ShowInt(i);
      DigitsOfShowNat(-i);
      assert s[1..] == ShowNat(-i);
      assert !IsDigit(s[0]);
    } else {
      DigitsOfShowNat(i);
    }
  }
}
