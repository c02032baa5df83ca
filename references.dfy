/**
 * The reference resolver: `_setRef` and `_buildRef` of records and of
 * collections. A string location is an absolute store URL when it contains,
 * anywhere, `https://` followed on the same line by `.firebaseio.com`; the
 * record's test ignores ASCII case, the collection's does not.
 */
module References {
  import opened Wrappers
  import opened Attributes
  import opened Remote

  const Scheme: string := "https://"
  const Host: string := ".firebaseio.com"

  /** ASCII lower-casing; the only case folding a non-unicode regular expression does on these literals. */
  function Fold(c: char): char
  {
    if 'A' <= c <= 'Z' then (c as int + 32) as char else c
  }

  predicate SameChar(a: char, b: char, ignoreCase: bool)
  {
    if ignoreCase then Fold(a) == Fold(b) else a == b
  }

  /** `s` begins with `lit`. */
  predicate StartsWith(s: string, lit: string, ignoreCase: bool)
  {
    |lit| <= |s| && forall i :: 0 <= i < |lit| ==> SameChar(s[i], lit[i], ignoreCase)
  }

  /** The characters `.` in a regular expression does not match. */
  predicate LineTerminator(c: char)
  {
    c == '\n' || c == '\r' || c == '\U{2028}' || c == '\U{2029}'
  }

  /** `https://` at `i`, `.firebaseio.com` at `j`, and no line break between them. */
  ghost predicate MatchAt(s: string, i: int, j: int, ignoreCase: bool)
  {
    && 0 <= i && i + |Scheme| <= j <= |s|
    && StartsWith(s[i..], Scheme, ignoreCase)
    && StartsWith(s[j..], Host, ignoreCase)
    && forall k :: i + |Scheme| <= k < j ==> !LineTerminator(s[k])
  }

  /** The pattern `https:\/\/.*\.firebaseio\.com` occurs somewhere in `s`. */
  ghost predicate PatternOccurs(s: string, ignoreCase: bool)
  {
    exists i, j :: MatchAt(s, i, j, ignoreCase)
  }

  /** `.firebaseio.com` at `j`, with no line break before it. */
  ghost predicate HostAt(t: string, j: int, ignoreCase: bool)
  {
    0 <= j <= |t| && StartsWith(t[j..], Host, ignoreCase) &&
    forall k :: 0 <= k < j ==> !LineTerminator(t[k])
  }

  /** The `.*\.firebaseio\.com` tail of the pattern matches a prefix of `t`. */
  function HostReachable(t: string, ignoreCase: bool): bool
    decreases |t|
  {
    if StartsWith(t, Host, ignoreCase) then true
    else if |t| == 0 || LineTerminator(t[0]) then false
    else HostReachable(t[1..], ignoreCase)
  }

  /** `url.match(re)` for the record's (`ignoreCase`) or the collection's pattern. */
  function Matches(s: string, ignoreCase: bool): bool
    decreases |s|
  {
    if |s| < |Scheme| then false
    else if StartsWith(s, Scheme, ignoreCase) && HostReachable(s[|Scheme|..], ignoreCase) then true
    else Matches(s[1..], ignoreCase)
  }

  lemma {:induction false} HostReachableIff(t: string, ignoreCase: bool)
    ensures HostReachable(t, ignoreCase) <==> exists j :: HostAt(t, j, ignoreCase)
    decreases |t|
  {
    if StartsWith(t, Host, ignoreCase) {
      assert t[0..] == t;
      assert HostAt(t, 0, ignoreCase);
    } else if |t| == 0 || LineTerminator(t[0]) {
    } else {
      HostReachableIff(t[1..], ignoreCase);
      if HostReachable(t[1..], ignoreCase) {
        var j :| HostAt(t[1..], j, ignoreCase);
        assert t[1..][j..] == t[j + 1..];
        assert HostAt(t, j + 1, ignoreCase);
      }
      if j :| HostAt(t, j, ignoreCase) {
        assert j != 0 by { assert t[0..] == t; }
        assert t[1..][j - 1..] == t[j..];
        assert HostAt(t[1..], j - 1, ignoreCase);
      }
    }
  }

  /** Every string the recursive matcher accepts contains the pattern. */
  lemma {:induction false} MatchesSound(s: string, ignoreCase: bool)
    requires Matches(s, ignoreCase)
    ensures PatternOccurs(s, ignoreCase)
    decreases |s|
  {
    var n := |Scheme|;
    if StartsWith(s, Scheme, ignoreCase) && HostReachable(s[n..], ignoreCase) {
      HostReachableIff(s[n..], ignoreCase);
      var j :| HostAt(s[n..], j, ignoreCase);
      assert s[n..][j..] == s[n + j..];
      assert s[0..] == s;
      assert MatchAt(s, 0, n + j, ignoreCase);
    } else {
      MatchesSound(s[1..], ignoreCase);
      var i, j :| MatchAt(s[1..], i, j, ignoreCase);
      assert s[1..][i..] == s[i + 1..] && s[1..][j..] == s[j + 1..];
      assert MatchAt(s, i + 1, j + 1, ignoreCase);
    }
  }

  /** An occurrence after the first `d` characters is an occurrence in the rest. */
  lemma MatchAtDrop(s: string, d: nat, i: int, j: int, ignoreCase: bool)
    requires MatchAt(s, i, j, ignoreCase) && d <= i
    ensures MatchAt(s[d..], i - d, j - d, ignoreCase)
  {
    assert s[d..][i - d..] == s[i..] && s[d..][j - d..] == s[j..];
    forall k | i - d + |Scheme| <= k < j - d
      ensures !LineTerminator(s[d..][k])
    {
      assert s[d..][k] == s[k + d];
    }
  }

  /** An occurrence in `s` is an occurrence in `prefix + s`, shifted. */
  lemma MatchAtShift(prefix: string, s: string, i: int, j: int, ignoreCase: bool)
    requires MatchAt(s, i, j, ignoreCase)
    ensures MatchAt(prefix + s, |prefix| + i, |prefix| + j, ignoreCase)
  {
    var t := prefix + s;
    var p := |prefix|;
    assert t[p..] == s;
    assert t[p + i..] == s[i..] && t[p + j..] == s[j..];
    forall k | p + i + |Scheme| <= k < p + j
      ensures !LineTerminator(t[k])
    {
      assert t[k] == s[k - p];
    }
  }

  /** An occurrence at the start is found by the first step of the matcher. */
  lemma MatchAtStart(s: string, j: int, ignoreCase: bool)
    requires MatchAt(s, 0, j, ignoreCase)
    ensures Matches(s, ignoreCase)
  {
    var n := |Scheme|;
    assert s[0..] == s;
    assert s[n..][j - n..] == s[j..];
    forall k | 0 <= k < j - n
      ensures !LineTerminator(s[n..][k])
    {
      assert s[n..][k] == s[k + n];
    }
    assert HostAt(s[n..], j - n, ignoreCase);
    HostReachableIff(s[n..], ignoreCase);
  }

  /** The recursive matcher finds every occurrence of the pattern. */
  lemma {:induction false} MatchesComplete(s: string, i: int, j: int, ignoreCase: bool)
    requires MatchAt(s, i, j, ignoreCase)
    ensures Matches(s, ignoreCase)
    decreases i
  {
    if i == 0 {
      MatchAtStart(s, j, ignoreCase);
    } else {
      MatchAtDrop(s, 1, i, j, ignoreCase);
      MatchesComplete(s[1..], i - 1, j - 1, ignoreCase);
    }
  }

  /** The recursive matcher decides exactly the pattern's occurrence. */
  lemma MatchesIff(s: string, ignoreCase: bool)
    ensures Matches(s, ignoreCase) <==> PatternOccurs(s, ignoreCase)
  {
    if Matches(s, ignoreCase) {
      MatchesSound(s, ignoreCase);
    }
    if PatternOccurs(s, ignoreCase) {
      var i, j :| MatchAt(s, i, j, ignoreCase);
      MatchesComplete(s, i, j, ignoreCase);
    }
  }

  /** The pattern is unanchored: text before a matching URL does not stop the match. */
  lemma UnanchoredMatch(prefix: string, s: string, ignoreCase: bool)
    ensures Matches(s, ignoreCase) ==> Matches(prefix + s, ignoreCase)
  {
    MatchesIff(s, ignoreCase);
    MatchesIff(prefix + s, ignoreCase);
    if Matches(s, ignoreCase) {
      var i, j :| MatchAt(s, i, j, ignoreCase);
      MatchAtShift(prefix, s, i, j, ignoreCase);
    }
  }

  /** Every URL the collection's case-sensitive test accepts, the record's test accepts. */
  lemma CaseSensitiveImpliesInsensitive(s: string)
    ensures Matches(s, false) ==> Matches(s, true)
  {
    MatchesIff(s, false);
    MatchesIff(s, true);
    if Matches(s, false) {
      var i, j :| MatchAt(s, i, j, false);
      assert MatchAt(s, i, j, true);
    }
  }

  /** `_buildRef`: an absolute store URL goes through `refFromURL`, anything else through `ref`. */
  function BuildRef(url: string, ignoreCase: bool): (r: Ref)
    ensures PatternOccurs(url, ignoreCase) ==> r == FromUrl(url)
    ensures !PatternOccurs(url, ignoreCase) ==> r == AtPath(url)
  {
    MatchesIff(url, ignoreCase);
    if Matches(url, ignoreCase) then FromUrl(url) else AtPath(url)
  }

  /** What a record's `url()` or a collection's `url` yields: its `typeof`. */
  datatype Location = LocObject(handle: nat) | LocString(s: string) | LocOther

  /** A collection's `url` property: a function to call, or a value. */
  datatype UrlProperty = UrlFunction(called: Location) | UrlValue(value: Location)

  /** `Model._setRef` (with the record's case-insensitive `_buildRef`). */
  function ModelSetRef(loc: Location): (r: Result<Ref, Error>)
    ensures r.Failure? <==> loc.LocOther?
    ensures r.Failure? ==> r.error == InvalidUrlType
    ensures loc.LocObject? ==> r == Success(Handle(loc.handle))
    ensures loc.LocString? ==> r == Success(BuildRef(loc.s, true))
  {
    match loc
    case LocObject(h) => Success(Handle(h))
    case LocString(s) => Success(BuildRef(s, true))
    case LocOther => Failure(InvalidUrlType)
  }

  /**
   * `Collection._setRef` (with the collection's case-sensitive `_buildRef`).
   * Line 783 of the source assigns `this.url` where `url` is meant; the
   * object that a `url` function returns is used here.
   */
  function CollectionSetRef(url: UrlProperty): (r: Result<Ref, Error>)
    ensures var loc := if url.UrlFunction? then url.called else url.value;
      && (r.Failure? <==> loc.LocOther?)
      && (loc.LocObject? ==> r == Success(Handle(loc.handle)))
      && (loc.LocString? ==> r == Success(BuildRef(loc.s, false)))
  {
    var loc := match url case UrlFunction(l) => l case UrlValue(l) => l;
    match loc
    case LocObject(h) => Success(Handle(h))
    case LocString(s) => Success(BuildRef(s, false))
    case LocOther => Failure(InvalidUrlType)
  }

  /** The upper-case scheme equals `https://` once case is ignored. */
  lemma UpperCaseSchemeFolds(s: string)
    requires s == "HTTPS://app.firebaseio.com"
    ensures StartsWith(s, Scheme, true)
  {
    assert s[0] == 'H' && s[1] == 'T' && s[2] == 'T' && s[3] == 'P' && s[4] == 'S';
    assert s[5] == ':' && s[6] == '/' && s[7] == '/';
  }

  /** An upper-case scheme still names an absolute URL for a record. */
  lemma UpperCaseSchemeMatchesForRecord(s: string)
    requires s == "HTTPS://app.firebaseio.com"
    ensures ModelSetRef(LocString(s)) == Success(FromUrl(s))
  {
    UpperCaseSchemeFolds(s);
    assert s[0..] == s;
    assert s[11..] == Host;
    assert MatchAt(s, 0, 11, true);
  }

  /** The case-sensitive pattern does not occur in a URL with an upper-case scheme. */
  lemma UpperCaseSchemeNoSensitiveMatch(s: string)
    requires s == "HTTPS://app.firebaseio.com"
    ensures !PatternOccurs(s, false)
  {
    // the scheme would have to start with a lower-case 'h' among the first four characters
    assert forall i, j :: MatchAt(s, i, j, false) ==> 0 <= i <= 3 && s[i..][0] == 'h';
    assert s[0] == 'H' && s[1] == 'T' && s[2] == 'T' && s[3] == 'P';
  }

  /** The same string is a path for a collection: its test is case-sensitive. */
  lemma UpperCaseSchemeIsPathForCollection(s: string)
    requires s == "HTTPS://app.firebaseio.com"
    ensures CollectionSetRef(UrlValue(LocString(s))) == Success(AtPath(s))
  {
    UpperCaseSchemeNoSensitiveMatch(s);
  }
}
