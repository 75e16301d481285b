/** _check_sqlite_file: a database URL of the form sqlite:///<path> names a
    local SQLite file, which must exist unless the path is empty or the
    in-memory database.  Whether a file exists is the predicate `present`. */
module SqliteUrl {

  const SqlitePrefix: string := "sqlite:///"

  /** The in-memory database name. */
  const InMemory: string := ":memory:"

  /** True unless the URL is sqlite:/// followed by a path that is neither
      empty nor the in-memory database and names no existing file. */
  function CheckSqliteFile(url: string, present: string -> bool): (ok: bool)
    ensures ok <==> forall p :: url == SqlitePrefix + p ==> p == "" || p == InMemory || present(p)
  {
    if !(SqlitePrefix <= url) then true
    else
      var path := url[|SqlitePrefix|..];
      assert url == SqlitePrefix + path;
      assert forall p :: url == SqlitePrefix + p ==> p == path by {
        forall p | url == SqlitePrefix + p ensures p == path {
          assert url[|SqlitePrefix|..] == p;
        }
      }
      if path == "" || path == InMemory then true
      else present(path)
  }

  /** The path part of a SQLite file URL. */
  function PathOf(url: string): (path: string)
    requires SqlitePrefix <= url
    ensures SqlitePrefix + path == url
  {
    url[|SqlitePrefix|..]
  }

  /** The check fails only for a SQLite file URL whose path is a real file
      name that does not exist, and that is the one file it consults. */
  lemma FailureMeansMissingFile(url: string, present: string -> bool)
    requires !CheckSqliteFile(url, present)
    ensures SqlitePrefix <= url
    ensures var path := PathOf(url); path != "" && path != InMemory && !present(path)
  {
  }

  /** On a URL built from a path the check is: empty, in-memory, or existing. */
  lemma CheckOfPath(path: string, present: string -> bool)
    ensures CheckSqliteFile(SqlitePrefix + path, present) == (path == "" || path == InMemory || present(path))
  {
    var url := SqlitePrefix + path;
    assert SqlitePrefix <= url;
    assert url[|SqlitePrefix|..] == path;
  }

  /** Building a URL from its path and taking the path back is the identity. */
  lemma PathRoundTrip(path: string)
    ensures PathOf(SqlitePrefix + path) == path
  {
    assert (SqlitePrefix + path)[|SqlitePrefix|..] == path;
  }

  /** The result of the check depends on the file system only through the
      one path it names. */
  lemma OnlyThePathMatters(url: string, present: string -> bool, present': string -> bool)
    requires SqlitePrefix <= url ==> present(PathOf(url)) == present'(PathOf(url))
    ensures CheckSqliteFile(url, present) == CheckSqliteFile(url, present')
  {
  }

  /** Examples: a PostgreSQL URL and the in-memory database pass whatever the
      file system holds; a missing file fails. */
  lemma Examples(present: string -> bool)
    ensures CheckSqliteFile("postgresql://user@host/db", present)
    ensures CheckSqliteFile("sqlite:///:memory:", present)
    ensures CheckSqliteFile("sqlite:///", present)
    ensures !present("data.db") ==> !CheckSqliteFile("sqlite:///data.db", present)
  {
    CheckOfPath(":memory:", present);
    CheckOfPath("", present);
    CheckOfPath("data.db", present);
    assert "sqlite:///:memory:" == SqlitePrefix + ":memory:";
    assert "sqlite:///" == SqlitePrefix + "";
    assert "sqlite:///data.db" == SqlitePrefix + "data.db";
    assert "postgresql://user@host/db"[0] != SqlitePrefix[0];
  }
}
