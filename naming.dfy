/**
 * The names the service makes up: the sanitised storage name of an upload
 * (a disk file name in server.js, an object key in api/index.js, built by
 * the same expression), the short token cut from a UUID, and the public
 * link that carries the token.
 */
module Naming {
  import opened Wrappers
  import opened Decimals

  // ---------------------------------------------------------------------
  // Sanitising the client's file name
  // ---------------------------------------------------------------------

  /** The characters the sanitiser keeps: [A-Za-z0-9._-]. */
  predicate IsAllowed(c: char) {
    || ('a' <= c <= 'z')
    || ('A' <= c <= 'Z')
    || ('0' <= c <= '9')
    || c == '.' || c == '-' || c == '_'
  }

  predicate AllAllowed(s: string) {
    forall i :: 0 <= i < |s| ==> IsAllowed(s[i])
  }

  /** `name.replace(/[^a-zA-Z0-9.\-\_]/g, '_')`: every character outside the
      allowed set becomes `_`, every allowed one stays where it was. */
  function Sanitize(name: string): (r: string)
    ensures |r| == |name|
    ensures forall i :: 0 <= i < |name| && IsAllowed(name[i]) ==> r[i] == name[i]
    ensures forall i :: 0 <= i < |name| && !IsAllowed(name[i]) ==> r[i] == '_'
    ensures AllAllowed(r)
  {
    if name == [] then []
    else [if IsAllowed(name[0]) then name[0] else '_'] + Sanitize(name[1..])
  }

  /** A name is left as it is exactly when it already uses only allowed characters. */
  lemma SanitizeFixes(s: string)
    ensures Sanitize(s) == s <==> AllAllowed(s)
  {
  }

  /** Sanitising twice is sanitising once. */
  lemma SanitizeIdempotent(s: string)
    ensures Sanitize(Sanitize(s)) == Sanitize(s)
  {
  }

  // ---------------------------------------------------------------------
  // Cutting a string at its first '-'
  // ---------------------------------------------------------------------

  /** `s.split('-')[0]`: the text before the first `-`, or all of `s` when
      it has none. */
  function HeadField(s: string): (r: string)
    ensures '-' !in r
    ensures |r| <= |s| && r == s[..|r|]
    ensures |r| < |s| ==> s[|r|] == '-'
  {
    if s == [] || s[0] == '-' then [] else [s[0]] + HeadField(s[1..])
  }

  /** Whatever has no `-` and is followed by one is the head field. */
  lemma HeadFieldBeforeDash(p: string, rest: string)
    requires '-' !in p
    ensures HeadField(p + "-" + rest) == p
  {
    var s := p + "-" + rest;
    assert s[..|p|] == p && s[|p|] == '-';
    assert forall i :: 0 <= i < |p| ==> s[i] == p[i];
    assert |HeadField(s)| == |p|;
  }

  // ---------------------------------------------------------------------
  // The storage name: `Date.now() + '-' + sanitised`
  // ---------------------------------------------------------------------

  /** The disk file name (server.js) or object key (api/index.js) of an
      upload received at `now` milliseconds under the client's `name`. */
  function StoredName(now: nat, name: string): (r: string)
    ensures AllAllowed(r) && IsPathComponent(r)
    ensures |r| == |Decimal(now)| + 1 + |name|
  {
    var r := Decimal(now) + "-" + Sanitize(name);
    assert IsDigit(r[0]);
    r
  }

  /** One path component: not empty, not `.` or `..`, and free of both the
      POSIX and the Windows separator. */
  predicate IsPathComponent(s: string) {
    && s != "" && s != "." && s != ".."
    && forall i :: 0 <= i < |s| ==> s[i] != '/' && s[i] != '\\'
  }

  /** The storage name uses only allowed characters (so sanitising it again
      changes nothing), is one path component, and is exactly one character
      longer than the timestamp and the client's name together. */
  lemma StoredNameShape(now: nat, name: string)
    ensures var s := StoredName(now, name);
      && AllAllowed(s)
      && Sanitize(s) == s
      && IsPathComponent(s)
      && |s| == |Decimal(now)| + 1 + |name|
  {
  }

  /** Reads a storage name back as its timestamp and its sanitised name. */
  function SplitStoredName(s: string): Option<(nat, string)> {
    var stamp := HeadField(s);
    if stamp != [] && |stamp| < |s| && AllDigits(stamp)
    then Some((DecimalValue(stamp), s[|stamp| + 1..]))
    else None
  }

  /** The storage name starts with the decimal timestamp and a `-`, and the
      rest is the sanitised client name: splitting it gives both back. */
  lemma {:induction false} StoredNameRoundTrip(now: nat, name: string)
    ensures SplitStoredName(StoredName(now, name)) == Some((now, Sanitize(name)))
  {
    var d := Decimal(now);
    HeadFieldBeforeDash(d, Sanitize(name));
    DecimalRoundTrip(now);
    assert StoredName(now, name)[|d| + 1..] == Sanitize(name);
  }

  /** Two storage names are equal exactly when their timestamps are equal
      and the client names sanitise alike: uploads in the same millisecond
      under such names get the same disk file name or object key. */
  lemma StoredNameEq(now1: nat, name1: string, now2: nat, name2: string)
    ensures StoredName(now1, name1) == StoredName(now2, name2)
        <==> now1 == now2 && Sanitize(name1) == Sanitize(name2)
  {
    if StoredName(now1, name1) == StoredName(now2, name2) {
      StoredNameRoundTrip(now1, name1);
      StoredNameRoundTrip(now2, name2);
    }
  }

  /** For instance, `a b.txt` and `a?b.txt` uploaded in the same millisecond
      share one storage name. */
  lemma DistinctNamesCollide()
    ensures "a b.txt" != "a?b.txt"
    ensures StoredName(5, "a b.txt") == StoredName(5, "a?b.txt")
  {
    StoredNameEq(5, "a b.txt", 5, "a?b.txt");
    assert Sanitize("a b.txt") == Sanitize("a?b.txt");
  }

  // ---------------------------------------------------------------------
  // Paths: `path.join(uploadDir, filename)`
  // ---------------------------------------------------------------------

  /** `path.join(dir, name)` for a normalised `dir` without a trailing
      separator and a `name` that is one path component. */
  function JoinPath(dir: string, name: string): string {
    dir + "/" + name
  }

  /** The last component of a path: what follows its last `/`. */
  function BaseName(p: string): (r: string)
    ensures |r| <= |p| && r == p[|p| - |r|..]
    ensures '/' !in r
    ensures |r| < |p| ==> p[|p| - |r| - 1] == '/'
  {
    if p == [] || p[|p| - 1] == '/' then []
    else BaseName(p[..|p| - 1]) + [p[|p| - 1]]
  }

  /** The directory part of a path: what precedes its last `/`. */
  function DirName(p: string): string {
    var b := BaseName(p);
    if |b| < |p| then p[..|p| - |b| - 1] else ""
  }

  /** Joining a path component to a directory names a direct child of that
      directory: the component is the last part and the directory the rest. */
  lemma JoinIsDirectChild(dir: string, name: string)
    requires IsPathComponent(name)
    ensures BaseName(JoinPath(dir, name)) == name
    ensures DirName(JoinPath(dir, name)) == dir
  {
    var p := JoinPath(dir, name);
    assert p[|dir|] == '/' && p[|dir| + 1..] == name && p[..|dir|] == dir;
    assert forall i :: |dir| < i < |p| ==> p[i] == name[i - |dir| - 1];
    assert |BaseName(p)| == |name|;
  }

  // ---------------------------------------------------------------------
  // Tokens and links
  // ---------------------------------------------------------------------

  predicate IsHexDigit(c: char) {
    ('0' <= c <= '9') || ('a' <= c <= 'f')
  }

  /** The canonical text of a UUID as `uuidv4()` returns it: 36 characters,
      lower-case hex digits in groups of 8-4-4-4-12 separated by `-`. */
  predicate IsUuid(u: string) {
    && |u| == 36
    && forall i :: 0 <= i < |u| ==>
         if i == 8 || i == 13 || i == 18 || i == 23 then u[i] == '-' else IsHexDigit(u[i])
  }

  /** The token `uuidv4().split('-')[0]` is the first group of the UUID:
      eight hex digits, so it holds neither `-` nor `/`. */
  lemma UuidToken(u: string)
    requires IsUuid(u)
    ensures HeadField(u) == u[..8]
    ensures |HeadField(u)| == 8
    ensures forall i :: 0 <= i < 8 ==> IsHexDigit(HeadField(u)[i])
  {
    assert u[8] == '-';
    assert |HeadField(u)| == 8;
  }

  const FileRoute: string := "/file/"

  /** The public link to a token: `/file/${token}`. */
  function Link(token: string): (r: string)
    ensures |r| == |FileRoute| + |token|
    ensures r[..|FileRoute|] == FileRoute && r[|FileRoute|..] == token
  {
    FileRoute + token
  }

  /** ASCII lower case, as a case-insensitive JavaScript regular expression
      compares letters. */
  function LowerAscii(c: char): char {
    if 'A' <= c <= 'Z' then (c as int + 32) as char else c
  }

  function FoldCase(s: string): string {
    seq(|s|, i requires 0 <= i < |s| => LowerAscii(s[i]))
  }

  /** The token Express binds to `:token` when a path matches `/file/:token`.
      Express matches routes ignoring case and accepts one trailing `/`; the
      token is the one non-empty segment after the prefix, as written. */
  function RouteToken(path: string): (r: Option<string>)
    ensures !(|path| > |FileRoute| && FoldCase(path[..|FileRoute|]) == FileRoute) ==> r.None?
    ensures r.Some? ==> r.value != "" && '/' !in r.value
    ensures r.Some? ==> path[|FileRoute|..] == r.value || path[|FileRoute|..] == r.value + "/"
  {
    if |path| > |FileRoute| && FoldCase(path[..|FileRoute|]) == FileRoute then
      var rest := path[|FileRoute|..];
      var segment := if rest[|rest| - 1] == '/' then rest[..|rest| - 1] else rest;
      if segment != "" && '/' !in segment then Some(segment) else None
    else None
  }

  /** A link resolves to its own token, and a path resolving to a token is
      that token's link, up to the case of the prefix and a trailing `/`. */
  lemma LinkRoutes(token: string, path: string)
    ensures token != "" && '/' !in token ==> RouteToken(Link(token)) == Some(token)
    ensures RouteToken(path) == Some(token) ==>
      && |path| > |FileRoute|
      && FoldCase(path[..|FileRoute|]) == FileRoute
      && (path[|FileRoute|..] == token || path[|FileRoute|..] == token + "/")
  {
  }

  /** The link returned for a fresh UUID leads back to that upload's token. */
  lemma UuidLinkResolves(u: string)
    requires IsUuid(u)
    ensures RouteToken(Link(HeadField(u))) == Some(HeadField(u))
  {
  }
}
