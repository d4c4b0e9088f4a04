/** Bearer authentication: reading the token out of an Authorization
    header, and the `tokens` table operations of login and token checks. */
module Auth {
  import opened Rows

  /** The scheme prefix the server demands of an Authorization header. */
  const Scheme: string := "Bearer "

  predicate StartsWith(s: string, prefix: string) {
    |prefix| <= |s| && s[..|prefix|] == prefix
  }

  /** No position of `s` starts an occurrence of `pat`. */
  predicate Free(s: string, pat: string) {
    forall i :: 0 <= i <= |s| ==> !StartsWith(s[i..], pat)
  }

  /** Python's `s.replace(pat, "")`: scans left to right and drops every
      non-overlapping occurrence of `pat`. */
  function RemoveAll(s: string, pat: string): (r: string)
    requires pat != []
    ensures |r| <= |s|
    ensures forall c :: c in r ==> c in s
    decreases |s|
  {
    if |s| < |pat| then s
    else if s[..|pat|] == pat then RemoveAll(s[|pat|..], pat)
    else [s[0]] + RemoveAll(s[1..], pat)
  }

  /** A string with no occurrence of the pattern comes back unchanged. */
  lemma {:induction false} RemoveAllFree(s: string, pat: string)
    requires pat != []
    requires Free(s, pat)
    ensures RemoveAll(s, pat) == s
    decreases |s|
  {
    if |s| >= |pat| {
      assert s[0..] == s;
      assert !StartsWith(s[0..], pat);
      forall i | 0 <= i <= |s[1..]| ensures !StartsWith(s[1..][i..], pat) {
        assert s[1..][i..] == s[i + 1..];
        assert !StartsWith(s[i + 1..], pat);
      }
      RemoveAllFree(s[1..], pat);
      assert [s[0]] + s[1..] == s;
    }
  }

  /** The scheme contains a space, so a string without spaces holds no copy of it. */
  lemma SpaceFreeHasNoScheme(t: string)
    requires ' ' !in t
    ensures Free(t, Scheme)
  {
    forall i | 0 <= i <= |t| ensures !StartsWith(t[i..], Scheme) {
      if i + |Scheme| <= |t| {
        assert t[i..][..|Scheme|][6] == t[i + 6];
        assert t[i + 6] in t;
      }
    }
  }

  /** The token of a request: `None` when the header is missing or does not
      start with the scheme; otherwise the header with EVERY occurrence of
      the scheme removed (`authorization.replace("Bearer ", "")`). */
  function BearerToken(header: Option<string>): (r: Option<Token>)
    ensures r.None? <==> header.None? || !StartsWith(header.value, Scheme)
    ensures r.Some? ==> |r.value| <= |header.value| - |Scheme|
  {
    if header.None? || !StartsWith(header.value, Scheme) then None
    else
      var h := header.value;
      assert h[..|Scheme|] == Scheme;
      Some(RemoveAll(h, Scheme))
  }

  /** A header built as scheme + token gives the token back, for every
      token without spaces (which includes the URL-safe tokens login issues). */
  lemma BearerRoundTrip(t: Token)
    requires ' ' !in t
    ensures BearerToken(Some(Scheme + t)) == Some(t)
  {
    var h := Scheme + t;
    assert h[..|Scheme|] == Scheme;
    assert h[|Scheme|..] == t;
    SpaceFreeHasNoScheme(t);
    RemoveAllFree(t, Scheme);
  }

  /** An occurrence of the pattern at the front is dropped. */
  lemma RemoveAllSkips(pat: string, t: string)
    requires pat != []
    ensures RemoveAll(pat + t, pat) == RemoveAll(t, pat)
  {
  }

  /** A character that does not start an occurrence is kept. */
  lemma RemoveAllKeeps(pat: string, c: char, t: string)
    requires pat != [] && !StartsWith([c] + t, pat)
    ensures RemoveAll([c] + t, pat) == [c] + RemoveAll(t, pat)
  {
  }

  /** With no spaces on either side, an inner occurrence is dropped too:
      no occurrence can start before it, since every occurrence ends in a space. */
  lemma {:induction false} RemoveAllInner(a: string, b: string)
    requires ' ' !in a && ' ' !in b
    ensures RemoveAll(a + Scheme + b, Scheme) == a + b
    decreases |a|
  {
    if a == [] {
      assert a + Scheme + b == Scheme + b && a + b == b;
      RemoveAllSkips(Scheme, b);
      SpaceFreeHasNoScheme(b);
      RemoveAllFree(b, Scheme);
    } else {
      var s := a + Scheme + b;
      if |a| > 6 {
        assert s[6] == a[6] && a[6] in a;
      } else {
        assert s[6] == Scheme[6 - |a|];
      }
      assert s[..|Scheme|][6] == s[6];
      assert s == [a[0]] + (a[1..] + Scheme + b);
      RemoveAllKeeps(Scheme, a[0], a[1..] + Scheme + b);
      RemoveAllInner(a[1..], b);
      assert a + b == [a[0]] + (a[1..] + b);
    }
  }

  /** `replace` drops every occurrence of the scheme, not just the leading
      one: "Bearer " + a + "Bearer " + b yields a + b. */
  lemma BearerRemovesEveryOccurrence(a: string, b: string)
    requires ' ' !in a && ' ' !in b
    ensures BearerToken(Some(Scheme + a + Scheme + b)) == Some(a + b)
  {
    var h := Scheme + a + Scheme + b;
    assert h == Scheme + (a + Scheme + b);
    assert h[..|Scheme|] == Scheme;
    RemoveAllSkips(Scheme, a + Scheme + b);
    RemoveAllInner(a, b);
  }

  /** `SELECT user_id FROM tokens WHERE token = ? AND expires_at > now`. */
  function LiveUser(tokens: map<Token, TokenRow>, token: Token, now: Time): (r: Option<UserId>)
    ensures r.Some? <==> token in tokens && now < tokens[token].expiresAt
    ensures r.Some? ==> r.value == tokens[token].userId
  {
    if token in tokens && now < tokens[token].expiresAt then Some(tokens[token].userId) else None
  }

  /** `DELETE FROM tokens WHERE user_id = u`. */
  function RevokeAll(tokens: map<Token, TokenRow>, u: UserId): (r: map<Token, TokenRow>)
    ensures forall t :: t in r <==> t in tokens && tokens[t].userId != u
    ensures forall t :: t in r ==> r[t] == tokens[t]
  {
    map t | t in tokens && tokens[t].userId != u :: tokens[t]
  }

  /** What a login of `u` with `token` does to token checks: the new token
      is live until its expiry, the user's older tokens are dead, and every
      other user's token answers as before. So `token` is the one token
      that names `u`. */
  lemma LiveAfterLogin(tokens: map<Token, TokenRow>, u: UserId, token: Token, expiresAt: Time, now: Time, t: Token)
    ensures LiveUser(RevokeAll(tokens, u)[token := TokenRow(u, expiresAt)], t, now) ==
      if t == token then (if now < expiresAt then Some(u) else None)
      else if t in tokens && tokens[t].userId == u then None
      else LiveUser(tokens, t, now)
    ensures LiveUser(RevokeAll(tokens, u)[token := TokenRow(u, expiresAt)], t, now) == Some(u) <==>
      t == token && now < expiresAt
  {
  }
}
