/**
 * How the older item turns its secret into key text: a secret that looks
 * like a URL is fetched, anything else is read as a file, and the text is
 * stripped and must not be empty.
 */
module Secrets {
  import opened Results
  import opened Values

  /** The characters Ruby's `String#strip` removes. */
  const Whitespace: set<char> := {' ', '\t', '\n', '\U{B}', '\U{C}', '\r', '\0'}

  /** `r` is `s` with whitespace only before and after it, taken at offset `i`. */
  predicate StrippedFrom(r: string, s: string, i: nat) {
    && i + |r| <= |s|
    && s[i..i + |r|] == r
    && Over(s[..i], Whitespace)
    && Over(s[i + |r|..], Whitespace)
  }

  /** Ruby's `String#lstrip`. */
  function LStrip(s: string): (r: string)
    ensures |r| <= |s| && r == s[|s| - |r|..]
    ensures Over(s[..|s| - |r|], Whitespace)
    ensures r == [] || r[0] !in Whitespace
  {
    if s != [] && s[0] in Whitespace then
      var r := LStrip(s[1..]);
      assert s[..|s| - |r|] == [s[0]] + s[1..][..|s[1..]| - |r|];
      r
    else s
  }

  /** Ruby's `String#rstrip`. */
  function RStrip(s: string): (r: string)
    ensures |r| <= |s| && r == s[..|r|]
    ensures Over(s[|r|..], Whitespace)
    ensures r == [] || r[|r| - 1] !in Whitespace
  {
    if s != [] && s[|s| - 1] in Whitespace then
      var r := RStrip(s[..|s| - 1]);
      assert s[|r|..] == s[..|s| - 1][|r|..] + [s[|s| - 1]];
      r
    else s
  }

  /**
   * Ruby's `String#strip`: the text between leading and trailing
   * whitespace, which itself neither starts nor ends with whitespace.
   */
  function Strip(s: string): (r: string)
    ensures exists i: nat :: StrippedFrom(r, s, i)
    ensures r == [] || (r[0] !in Whitespace && r[|r| - 1] !in Whitespace)
  {
    var l := LStrip(s);
    var r := RStrip(l);
    var i := |s| - |l|;
    assert s[i..i + |r|] == r by {
      assert s[i..i + |r|] == l[..|r|];
    }
    assert s[i + |r|..] == l[|r|..];
    assert StrippedFrom(r, s, i);
    r
  }

  /** A text made of whitespace only strips to nothing, and only such a text does. */
  lemma StripEmpty(s: string)
    ensures Strip(s) == [] <==> Over(s, Whitespace)
  {
    var r := Strip(s);
    var i: nat :| StrippedFrom(r, s, i);
    if r == [] {
      assert s == s[..i] + s[i..];
      forall k | 0 <= k < |s| ensures s[k] in Whitespace {
        if k < i { assert s[k] == s[..i][k]; } else { assert s[k] == s[i..][k - i]; }
      }
    } else {
      assert s[i] == r[0];
    }
  }

  /** `\w` in a Ruby regular expression. */
  predicate WordChar(c: char) {
    ('a' <= c <= 'z') || ('A' <= c <= 'Z') || ('0' <= c <= '9') || c == '_'
  }

  /** `^` in a Ruby regular expression matches at the start of the text and after every newline. */
  predicate LineStart(s: string, i: nat) {
    i == 0 || (i <= |s| && s[i - 1] == '\n')
  }

  predicate WordRun(s: string, i: nat, j: nat) {
    i < j <= |s| && forall k :: i <= k < j ==> WordChar(s[k])
  }

  /** The secret matches `/^\w+:\/\//`: some line of it starts with a word followed by `://`. */
  predicate IsRemote(s: string) {
    exists i: nat, j: nat | i < j <= |s| :: LineStart(s, i) && WordRun(s, i, j) && OccursAt("://", s, j)
  }

  /** A URL with a scheme is remote. */
  lemma SchemeIsRemote(scheme: string, rest: string)
    requires scheme != [] && forall k :: 0 <= k < |scheme| ==> WordChar(scheme[k])
    ensures IsRemote(scheme + "://" + rest)
  {
    var s := scheme + "://" + rest;
    assert WordRun(s, 0, |scheme|) by {
      forall k | 0 <= k < |scheme| ensures WordChar(s[k]) {
        assert s[k] == scheme[k];
      }
    }
    assert s[|scheme|..|scheme| + 3] == "://";
    assert LineStart(s, 0) && OccursAt("://", s, |scheme|);
  }

  /** A text without a colon, such as an ordinary file path, is never remote. */
  lemma NoColonNotRemote(s: string)
    requires ':' !in s
    ensures !IsRemote(s)
  {
    forall j: nat | j + 3 <= |s| ensures !OccursAt("://", s, j) {
      assert s[j..j + 3][0] == s[j];
    }
  }

  /** Because `^` matches after a newline, a URL on a later line makes the whole secret remote. */
  lemma LaterLineRemote(first: string, url: string)
    requires IsRemote(url)
    ensures IsRemote(first + "\n" + url)
  {
    var i: nat, j: nat :| i < j <= |url| && LineStart(url, i) && WordRun(url, i, j) && OccursAt("://", url, j);
    var s := first + "\n" + url;
    var o := |first| + 1;
    assert s[o..] == url;
    assert LineStart(s, o + i) by {
      if i > 0 {
        assert s[o + i - 1] == s[o..][i - 1];
      } else {
        assert s[o - 1] == '\n';
      }
    }
    assert WordRun(s, o + i, o + j) by {
      forall k | o + i <= k < o + j ensures WordChar(s[k]) {
        assert s[k] == s[o..][k - o];
      }
    }
    assert s[o + j..o + j + 3] == s[o..][j..j + 3];
    assert OccursAt("://", s, o + j);
  }

  /** What fetching a URL gives: a body, or one of the failures the source tells apart. */
  datatype Fetch = Body(text: string) | Refused | HttpFailure | Raised

  /** The network and the file system, as the key loader sees them. */
  datatype SecretSources = SecretSources(
    fetch: string -> Fetch,
    fileExists: string -> bool,
    readFile: string -> string)

  /** The file branch: the file must exist; its text is stripped. */
  function ReadKeyFile(secret: string, src: SecretSources): (r: Result<string>)
    ensures !src.fileExists(secret) ==> r == Err(SecretFileNotFound(secret))
    ensures src.fileExists(secret) ==> r == Ok(Strip(src.readFile(secret)))
  {
    if !src.fileExists(secret) then Err(SecretFileNotFound(secret))
    else Ok(Strip(src.readFile(secret)))
  }

  /**
   * The key text as the source reads it. The remote branch opens `path`,
   * a name nothing defines, so it raises a NameError that neither rescue
   * clause catches.
   */
  function ReadKeyAsWritten(secret: string, src: SecretSources): (r: Result<string>)
    ensures IsRemote(secret) ==> r == Err(UndefinedName("path"))
    ensures !IsRemote(secret) ==> r == ReadKeyFile(secret, src)
  {
    if IsRemote(secret) then Err(UndefinedName("path")) else ReadKeyFile(secret, src)
  }

  /** Under the source as written no URL secret is ever read, whatever the network answers. */
  lemma RemoteKeyNeverRead(scheme: string, rest: string, src: SecretSources)
    requires scheme != [] && forall k :: 0 <= k < |scheme| ==> WordChar(scheme[k])
    ensures ReadKeyAsWritten(scheme + "://" + rest, src) == Err(UndefinedName("path"))
  {
    SchemeIsRemote(scheme, rest);
  }

  /**
   * The key text as the rescue clauses show it is meant to be read: a
   * remote secret is fetched from the secret itself; a refused connection
   * and an HTTP error each have their own message.
   */
  function ReadKey(secret: string, src: SecretSources): (r: Result<string>)
    ensures IsRemote(secret) ==> r == match src.fetch(secret)
      case Body(t) => Ok(Strip(t))
      case Refused => Err(RemoteKeyUnavailable(secret))
      case HttpFailure => Err(RemoteKeyNotFound(secret))
      case Raised => Err(CollaboratorFailure)
    ensures !IsRemote(secret) ==> r == ReadKeyFile(secret, src)
  {
    if IsRemote(secret) then
      match src.fetch(secret)
      case Body(t) => Ok(Strip(t))
      case Refused => Err(RemoteKeyUnavailable(secret))
      case HttpFailure => Err(RemoteKeyNotFound(secret))
      case Raised => Err(CollaboratorFailure)
    else ReadKeyFile(secret, src)
  }

  /** The two readings agree on every secret that is not remote. */
  lemma ReadKeyAgrees(secret: string, src: SecretSources)
    requires !IsRemote(secret)
    ensures ReadKey(secret, src) == ReadKeyAsWritten(secret, src)
  {
  }

  /**
   * Which remote branch a key is read with: as written (it always raises)
   * or as the rescue clauses show it is meant to work.
   */
  datatype Reading = AsWritten | Intended

  /** The key text under the chosen reading. */
  function ReadWith(reading: Reading, secret: string, src: SecretSources): Result<string> {
    if reading.AsWritten? then ReadKeyAsWritten(secret, src) else ReadKey(secret, src)
  }

  /**
   * The block `key` memoises: a secret is needed, its key text is read and
   * must not be empty once stripped.
   */
  function KeyFromSecret(reading: Reading, secret: Option<string>, src: SecretSources): (r: Result<string>)
    ensures secret.None? ==> r == Err(NoSecret)
    ensures r.Ok? ==> r.value != [] && r.value[0] !in Whitespace && r.value[|r.value| - 1] !in Whitespace
    ensures secret.Some? && ReadWith(reading, secret.value, src).Err? ==> r == Err(ReadWith(reading, secret.value, src).error)
    ensures secret.Some? && ReadWith(reading, secret.value, src) == Ok([]) ==> r == Err(EmptySecret(secret.value))
    ensures secret.Some? && ReadWith(reading, secret.value, src).Ok? && ReadWith(reading, secret.value, src).value != [] ==>
      r == ReadWith(reading, secret.value, src)
  {
    if secret.None? then Err(NoSecret)
    else
      var k :- ReadWith(reading, secret.value, src);
      if |k| < 1 then Err(EmptySecret(secret.value)) else Ok(k)
  }

  /** As written, a URL secret never yields a key: the NameError escapes the key block. */
  lemma RemoteSecretRaises(scheme: string, rest: string, src: SecretSources)
    requires scheme != [] && forall k :: 0 <= k < |scheme| ==> WordChar(scheme[k])
    ensures KeyFromSecret(AsWritten, Some(scheme + "://" + rest), src) == Err(UndefinedName("path"))
  {
    RemoteKeyNeverRead(scheme, rest, src);
  }
}
