/**
 * Backend settings (backend/config.py): the defaults, the SQLAlchemy
 * database URI and the list of allowed CORS origins.
 */
module Config {
  import opened Text
  import opened Seqs

  datatype Settings = Settings(
    dbHost: string, dbPort: int, dbUser: string, dbPassword: string, dbName: string,
    corsOrigins: string, mongoUri: string, mongoDb: string, autoBlock: bool)

  /** The values used when neither the environment nor `.env` sets a field. */
  const Defaults := Settings(
    "127.0.0.1", 3306, "root", "", "cybershield_db",
    "http://localhost:3000,http://127.0.0.1:3000",
    "mongodb://127.0.0.1:27017", "cybershield_logs", true)

  const Scheme := "mysql+pymysql://"

  /** The user part of the URI: the user name, then ":password" only when the password is not empty. */
  function UserInfo(s: Settings): string {
    if s.dbPassword != "" then s.dbUser + ":" + s.dbPassword else s.dbUser
  }

  /** `SQLALCHEMY_DATABASE_URI`: scheme, user info, "@host:port/name". */
  function DatabaseUri(s: Settings): (uri: string)
    ensures uri == Scheme + UserInfo(s) + "@" + s.dbHost + ":" + IntToString(s.dbPort) + "/" + s.dbName
  {
    if s.dbPassword != "" then
      Scheme + s.dbUser + ":" + s.dbPassword + "@" + s.dbHost + ":" + IntToString(s.dbPort) + "/" + s.dbName
    else
      Scheme + s.dbUser + "@" + s.dbHost + ":" + IntToString(s.dbPort) + "/" + s.dbName
  }

  /**
   * When neither user nor password holds "@" and the user holds no ":",
   * the URI up to its first "@" is the scheme and the user info, and that
   * user info holds a ":" exactly when a password is set.
   */
  lemma UriShowsPasswordOnlyWhenSet(s: Settings)
    requires '@' !in s.dbUser && '@' !in s.dbPassword && ':' !in s.dbUser
    ensures var uri := DatabaseUri(s);
            '@' in uri && uri[..IndexOf(uri, '@')] == Scheme + UserInfo(s)
    ensures ':' in UserInfo(s) <==> s.dbPassword != ""
  {
    UriHead(s);
    UserInfoColon(s);
  }

  lemma UriHead(s: Settings)
    requires '@' !in s.dbUser && '@' !in s.dbPassword
    ensures var uri := DatabaseUri(s);
            '@' in uri && uri[..IndexOf(uri, '@')] == Scheme + UserInfo(s)
  {
    var uri := DatabaseUri(s);
    var head := Scheme + UserInfo(s);
    var tail := s.dbHost + ":" + IntToString(s.dbPort) + "/" + s.dbName;
    assert '@' !in Scheme;
    assert '@' !in UserInfo(s);
    assert '@' !in head;
    assert uri == head + ['@'] + tail;
    assert uri[..|head|] == head;
    IndexOfFirst(uri, '@', |head|);
  }

  lemma UserInfoColon(s: Settings)
    requires ':' !in s.dbUser
    ensures ':' in UserInfo(s) <==> s.dbPassword != ""
  {
    if s.dbPassword != "" {
      assert UserInfo(s)[|s.dbUser|] == ':';
    }
  }

  /**
   * With the default settings the URI is "mysql+pymysql://root@127.0.0.1:3306/cybershield_db":
   * user "root" with no password part, the local host, port 3306 and the
   * `cybershield_db` database.
   */
  lemma DefaultUri()
    ensures DatabaseUri(Defaults) == Scheme + "root" + "@" + "127.0.0.1" + ":" + "3306" + "/" + "cybershield_db"
    ensures ':' !in UserInfo(Defaults)
  {
    DefaultPortText();
    assert UserInfo(Defaults) == "root";
  }

  lemma DefaultPortText()
    ensures IntToString(3306) == "3306"
  {
    assert NatToString(3) == "3";
    assert NatToString(33) == NatToString(3) + [DigitChar(3)];
    assert NatToString(330) == NatToString(33) + [DigitChar(0)];
    assert NatToString(3306) == NatToString(330) + [DigitChar(6)];
  }

  function Trimmed(parts: seq<string>): (r: seq<string>)
    ensures |r| == |parts| && forall i | 0 <= i < |parts| :: r[i] == PyStrip(parts[i])
  {
    seq(|parts|, i requires 0 <= i < |parts| => PyStrip(parts[i]))
  }

  /**
   * `cors_origins_list`: the comma-separated entries, trimmed, without the
   * empty ones, in their original order, a repeated entry as often as it
   * occurs. No entry is empty, holds a comma
   * or has whitespace at either end.
   */
  function CorsOriginsList(s: Settings): (origins: seq<string>)
    ensures forall o | o in origins :: o != "" && PyStrip(o) == o && ',' !in o
    ensures forall o :: o in origins <==> o != "" && o in Trimmed(Split(s.corsOrigins, ','))
    ensures IsSubsequence(origins, Trimmed(Split(s.corsOrigins, ',')))
    ensures forall o | o in Trimmed(Split(s.corsOrigins, ',')) ::
              multiset(origins)[o] == if o != "" then multiset(Trimmed(Split(s.corsOrigins, ',')))[o] else 0
  {
    var parts := Split(s.corsOrigins, ',');
    KeptEntries(parts);
    FilterCounts(Trimmed(parts), IsEntry);
    Filter(Trimmed(parts), IsEntry)
  }

  /** The non-empty trimmed entries of comma-free parts: what `CorsOriginsList` promises of them. */
  lemma KeptEntries(parts: seq<string>)
    requires forall p | p in parts :: ',' !in p
    ensures forall o | o in Filter(Trimmed(parts), IsEntry) :: o != "" && PyStrip(o) == o && ',' !in o
    ensures forall o :: o in Filter(Trimmed(parts), IsEntry) <==> o != "" && o in Trimmed(parts)
  {
    TrimmedEntries(parts);
    FilterMembers(Trimmed(parts), IsEntry);
  }

  /** An entry that survives the filter: anything but the empty string. */
  predicate IsEntry(o: string) { o != "" }

  /** Each trimmed entry is its own trim and, when the entries hold no comma, holds none either. */
  lemma TrimmedEntries(parts: seq<string>)
    requires forall p | p in parts :: ',' !in p
    ensures forall o | o in Trimmed(parts) :: PyStrip(o) == o && ',' !in o
  {
    var trimmed := Trimmed(parts);
    forall o | o in trimmed ensures PyStrip(o) == o && ',' !in o {
      var i :| 0 <= i < |trimmed| && trimmed[i] == o;
      TrimIdempotent(parts[i], IsPySpace);
      assert parts[i] in parts;
      if ',' in o { TrimChars(parts[i], IsPySpace, ','); }
    }
  }

  /** The default setting allows the two local development origins. */
  lemma DefaultCorsOrigins()
    ensures CorsOriginsList(Defaults) == ["http://localhost:3000", "http://127.0.0.1:3000"]
  {
    var a, b := "http://localhost:3000", "http://127.0.0.1:3000";
    assert Defaults.corsOrigins == a + [','] + b;
    TwoOrigins(Defaults, a, b);
  }

  /** Two comma-separated entries without surrounding blanks are kept as they are. */
  lemma TwoOrigins(s: Settings, a: string, b: string)
    requires s.corsOrigins == a + [','] + b
    requires ',' !in a && ',' !in b && a != "" && b != ""
    requires !IsPySpace(a[0]) && !IsPySpace(a[|a| - 1]) && !IsPySpace(b[0]) && !IsPySpace(b[|b| - 1])
    ensures CorsOriginsList(s) == [a, b]
  {
    SplitAt(a, ',', b);
    SplitNoSeparator(b, ',');
    TwoTrimmed(a, b);
    TwoKept(a, b);
    assert Split(s.corsOrigins, ',') == [a, b];
  }

  lemma TwoTrimmed(a: string, b: string)
    requires a != "" && b != ""
    requires !IsPySpace(a[0]) && !IsPySpace(a[|a| - 1]) && !IsPySpace(b[0]) && !IsPySpace(b[|b| - 1])
    ensures Trimmed([a, b]) == [a, b]
  {
    TrimKeeps(a, IsPySpace);
    TrimKeeps(b, IsPySpace);
  }

  lemma TwoKept(a: string, b: string)
    requires a != "" && b != ""
    ensures Filter([a, b], IsEntry) == [a, b]
  {
    assert [a, b][1..] == [b];
    assert [b][1..] == [];
    assert Filter([b], IsEntry) == [b] + Filter([], IsEntry);
    assert Filter([a, b], IsEntry) == [a] + Filter([b], IsEntry);
  }
}
