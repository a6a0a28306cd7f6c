/** The textual form of OIDC tokens: `strings.Split` and the two parsers built on it. */
module Tokens {
  import opened Wrappers

  const TOKEN_DELIMITER := '-'
  const SUBJECT_DELIMITER := ':'
  const ACCESS_TOKEN_PREFIX := "at_"
  const REFRESH_TOKEN_PREFIX := "rt_"
  const ID_PREFIX_V2 := "V2_"

  function Join(parts: seq<string>, sep: char): string
    requires |parts| >= 1
  {
    if |parts| == 1 then parts[0] else parts[0] + [sep] + Join(parts[1..], sep)
  }

  /** Go's strings.Split for a one-character separator; the contract determines the result. */
  function Split(s: string, sep: char): (parts: seq<string>)
    ensures |parts| >= 1
    ensures Join(parts, sep) == s
    ensures forall i :: 0 <= i < |parts| ==> sep !in parts[i]
  {
    if s == "" then [""]
    else
      var rest := Split(s[1..], sep);
      if s[0] == sep then
        var parts := [""] + rest;
        assert parts[1..] == rest;
        parts
      else
        var parts := [[s[0]] + rest[0]] + rest[1..];
        assert parts[1..] == rest[1..];
        parts
  }

  lemma {:induction false} SplitNone(s: string, sep: char)
    requires sep !in s
    ensures Split(s, sep) == [s]
  {
    if s != "" {
      SplitNone(s[1..], sep);
    }
  }

  lemma SplitSome(s: string, sep: char)
    requires sep in s
    ensures |Split(s, sep)| >= 2
  {
    var parts := Split(s, sep);
    assert sep in s && sep !in parts[0];
  }

  lemma {:induction false} SplitFirst(a: string, sep: char, b: string)
    requires sep !in a
    ensures Split(a + [sep] + b, sep) == [a] + Split(b, sep)
  {
    var s := a + [sep] + b;
    if a == "" {
      assert s[1..] == b;
    } else {
      assert s[1..] == a[1..] + [sep] + b;
      SplitFirst(a[1..], sep, b);
      assert [s[0]] + a[1..] == a;
    }
  }

  predicate HasPrefix(s: string, prefix: string) {
    prefix <= s
  }

  datatype RefreshTokenIDs = RefreshTokenIDs(oidcSessionID: string, refreshTokenID: string)

  /** Any text after a second `-` or after the first `:` of the second part is ignored. */
  function ParseRefreshToken(token: string): Result<RefreshTokenIDs, Error> {
    var split := Split(token, TOKEN_DELIMITER);
    if |split| < 2 || !HasPrefix(split[1], REFRESH_TOKEN_PREFIX) then Err(PreconditionFailed("OIDCS-JOI23"))
    else Ok(RefreshTokenIDs(split[0], Split(split[1], SUBJECT_DELIMITER)[0]))
  }

  datatype TokenIDs = TokenIDs(oidcSessionID: string, refreshTokenID: string, accessTokenID: string)

  function TokenIDsFromToken(token: string): Result<TokenIDs, Error> {
    var split := Split(token, TOKEN_DELIMITER);
    if |split| != 2 then Err(PreconditionFailed("OIDCS-S87kl"))
    else if HasPrefix(split[1], REFRESH_TOKEN_PREFIX) then Ok(TokenIDs(split[0], split[1], ""))
    else if HasPrefix(split[1], ACCESS_TOKEN_PREFIX) then Ok(TokenIDs(split[0], "", split[1]))
    else Err(PreconditionFailed("OIDCS-S87kl"))
  }

  /** What the id generator yields: decimal digits, hence no delimiter. */
  predicate PlainID(id: string) {
    TOKEN_DELIMITER !in id && SUBJECT_DELIMITER !in id
  }

  /** The clear text of a refresh token, `<session>-<refresh token>:<user>`. */
  function RefreshTokenText(oidcSessionID: string, refreshTokenID: string, userID: string): string {
    oidcSessionID + [TOKEN_DELIMITER] + refreshTokenID + [SUBJECT_DELIMITER] + userID
  }

  function AccessTokenText(oidcSessionID: string, accessTokenID: string): string {
    oidcSessionID + [TOKEN_DELIMITER] + accessTokenID
  }

  lemma {:induction false} FirstOfSplit(a: string, sep: char, b: string, other: char)
    requires other !in a && sep !in a && sep != other
    ensures HasPrefix(Split(a + [sep] + b, other)[0], a + [sep])
    decreases |a|
  {
    var s := a + [sep] + b;
    if a == "" {
      assert s[1..] == b;
    } else {
      assert s[1..] == a[1..] + [sep] + b;
      FirstOfSplit(a[1..], sep, b, other);
    }
  }

  /**
  A refresh token parses back to the ids it was built from, whatever the user id contains,
  including the delimiters themselves.
  */
  lemma RefreshTokenRoundTrip(oidcSessionID: string, generated: string, userID: string)
    requires TOKEN_DELIMITER !in oidcSessionID && PlainID(generated)
    ensures ParseRefreshToken(RefreshTokenText(oidcSessionID, REFRESH_TOKEN_PREFIX + generated, userID))
         == Ok(RefreshTokenIDs(oidcSessionID, REFRESH_TOKEN_PREFIX + generated))
  {
    var id := REFRESH_TOKEN_PREFIX + generated;
    var tail := id + [SUBJECT_DELIMITER] + userID;
    assert RefreshTokenText(oidcSessionID, id, userID) == oidcSessionID + [TOKEN_DELIMITER] + tail;
    SplitFirst(oidcSessionID, TOKEN_DELIMITER, tail);
    var second := Split(tail, TOKEN_DELIMITER)[0];
    FirstOfSplit(id, SUBJECT_DELIMITER, userID, TOKEN_DELIMITER);
    assert second == id + [SUBJECT_DELIMITER] + second[|id| + 1..];
    SplitFirst(id, SUBJECT_DELIMITER, second[|id| + 1..]);
  }

  /** An access token parses back through the revocation parser, and only as an access token. */
  lemma AccessTokenRoundTrip(oidcSessionID: string, generated: string)
    requires TOKEN_DELIMITER !in oidcSessionID && PlainID(generated)
    ensures TokenIDsFromToken(AccessTokenText(oidcSessionID, ACCESS_TOKEN_PREFIX + generated))
         == Ok(TokenIDs(oidcSessionID, "", ACCESS_TOKEN_PREFIX + generated))
    ensures ParseRefreshToken(AccessTokenText(oidcSessionID, ACCESS_TOKEN_PREFIX + generated)).Err?
  {
    var id := ACCESS_TOKEN_PREFIX + generated;
    SplitFirst(oidcSessionID, TOKEN_DELIMITER, id);
    SplitNone(id, TOKEN_DELIMITER);
    assert id[0] == 'a';
  }

  /** The refresh token without its subject parses back through the revocation parser as a refresh token. */
  lemma PlainRefreshTokenRoundTrip(oidcSessionID: string, generated: string)
    requires TOKEN_DELIMITER !in oidcSessionID && PlainID(generated)
    ensures TokenIDsFromToken(AccessTokenText(oidcSessionID, REFRESH_TOKEN_PREFIX + generated))
         == Ok(TokenIDs(oidcSessionID, REFRESH_TOKEN_PREFIX + generated, ""))
  {
    var id := REFRESH_TOKEN_PREFIX + generated;
    SplitFirst(oidcSessionID, TOKEN_DELIMITER, id);
    SplitNone(id, TOKEN_DELIMITER);
  }

  /**
  The two parsers agree on refresh tokens exactly when the token has no `:`; with one, the
  revocation parser keeps the subject that the refresh parser drops.
  */
  lemma ParsersAgree(token: string)
    requires |Split(token, TOKEN_DELIMITER)| == 2
    ensures ParseRefreshToken(token).Ok? <==> TokenIDsFromToken(token).Ok? && TokenIDsFromToken(token).value.refreshTokenID != ""
    ensures ParseRefreshToken(token).Ok? ==>
              && ParseRefreshToken(token).value.oidcSessionID == TokenIDsFromToken(token).value.oidcSessionID
              && (ParseRefreshToken(token).value.refreshTokenID == TokenIDsFromToken(token).value.refreshTokenID
                  <==> SUBJECT_DELIMITER !in Split(token, TOKEN_DELIMITER)[1])
  {
    var second := Split(token, TOKEN_DELIMITER)[1];
    if SUBJECT_DELIMITER !in second {
      SplitNone(second, SUBJECT_DELIMITER);
    }
    if HasPrefix(second, ACCESS_TOKEN_PREFIX) {
      assert second[0] == 'a';
    }
  }

  /** Ids the parsers return carry their prefix, so they are never the empty id of a revoked token. */
  lemma ParsedIDsPrefixed(token: string)
    ensures ParseRefreshToken(token).Ok? ==> HasPrefix(ParseRefreshToken(token).value.refreshTokenID, REFRESH_TOKEN_PREFIX)
    ensures TokenIDsFromToken(token).Ok? ==>
              var ids := TokenIDsFromToken(token).value;
              || (HasPrefix(ids.refreshTokenID, REFRESH_TOKEN_PREFIX) && ids.accessTokenID == "")
              || (HasPrefix(ids.accessTokenID, ACCESS_TOKEN_PREFIX) && ids.refreshTokenID == "")
  {
    var split := Split(token, TOKEN_DELIMITER);
    if |split| >= 2 && HasPrefix(split[1], REFRESH_TOKEN_PREFIX) {
      var second := split[1];
      assert second == "rt_" + second[3..];
      assert "rt_" + second[3..] == "rt" + ['_'] + second[3..];
      FirstOfSplit("rt", '_', second[3..], SUBJECT_DELIMITER);
    }
  }

  /** The revocation parser accepts exactly `<session>-<id>` with no other `-` and an id that has one of the two prefixes. */
  lemma AcceptedForRevocation(token: string, ids: TokenIDs)
    ensures TokenIDsFromToken(token) == Ok(ids) <==>
            && ((HasPrefix(ids.refreshTokenID, "rt_") && ids.accessTokenID == "")
                || (HasPrefix(ids.accessTokenID, "at_") && ids.refreshTokenID == ""))
            && TOKEN_DELIMITER !in ids.oidcSessionID && TOKEN_DELIMITER !in ids.refreshTokenID + ids.accessTokenID
            && token == AccessTokenText(ids.oidcSessionID, ids.refreshTokenID + ids.accessTokenID)
    ensures TokenIDsFromToken(token).Err? ==> TokenIDsFromToken(token).error == PreconditionFailed("OIDCS-S87kl")
  {
    var sid, id := ids.oidcSessionID, ids.refreshTokenID + ids.accessTokenID;
    if token == AccessTokenText(sid, id) && TOKEN_DELIMITER !in sid && TOKEN_DELIMITER !in id {
      SplitFirst(sid, TOKEN_DELIMITER, id);
      SplitNone(id, TOKEN_DELIMITER);
      assert ids.accessTokenID == "" ==> id == ids.refreshTokenID;
      assert ids.refreshTokenID == "" ==> id == ids.accessTokenID;
      PrefixesDiffer(id);
    }
    if TokenIDsFromToken(token) == Ok(ids) {
      var split := Split(token, TOKEN_DELIMITER);
      assert Join(split, TOKEN_DELIMITER) == split[0] + [TOKEN_DELIMITER] + Join(split[1..], TOKEN_DELIMITER);
      assert split[1] == id;
    }
  }

  lemma PrefixesDiffer(id: string)
    ensures !(HasPrefix(id, REFRESH_TOKEN_PREFIX) && HasPrefix(id, ACCESS_TOKEN_PREFIX))
  {
    if HasPrefix(id, REFRESH_TOKEN_PREFIX) {
      assert id[0] == 'r';
    }
  }

  /** The text starts with the part, which ends there or at the separator. */
  predicate StartsWithPart(s: string, part: string, sep: char) {
    HasPrefix(s, part) && (|s| == |part| || s[|part|] == sep)
  }

  lemma FirstPart(s: string, part: string, sep: char)
    requires sep !in part
    ensures Split(s, sep)[0] == part <==> StartsWithPart(s, part, sep)
  {
    var parts := Split(s, sep);
    if StartsWithPart(s, part, sep) {
      if |s| == |part| {
        assert s == part;
        SplitNone(s, sep);
      } else {
        assert s == part + [sep] + s[|part| + 1..];
        SplitFirst(part, sep, s[|part| + 1..]);
      }
    }
  }

  /** What the refresh parser takes of the text behind the session. */
  lemma SecondOfTail(tail: string, id: string)
    requires PlainID(id) && HasPrefix(id, REFRESH_TOKEN_PREFIX)
    ensures var second := Split(tail, TOKEN_DELIMITER)[0];
            HasPrefix(second, REFRESH_TOKEN_PREFIX) && Split(second, SUBJECT_DELIMITER)[0] == id
            <==> StartsWithPart(tail, id, TOKEN_DELIMITER) || StartsWithPart(tail, id, SUBJECT_DELIMITER)
  {
    var second := Split(tail, TOKEN_DELIMITER)[0];
    FirstPart(tail, second, TOKEN_DELIMITER);
    FirstPart(second, id, SUBJECT_DELIMITER);
    if StartsWithPart(tail, id, TOKEN_DELIMITER) {
      FirstPart(tail, id, TOKEN_DELIMITER);
    } else if StartsWithPart(tail, id, SUBJECT_DELIMITER) {
      assert tail == id + [SUBJECT_DELIMITER] + tail[|id| + 1..];
      FirstOfSplit(id, SUBJECT_DELIMITER, tail[|id| + 1..], TOKEN_DELIMITER);
      assert (id + [SUBJECT_DELIMITER])[|id|] == SUBJECT_DELIMITER;
    }
  }

  /** The session and everything behind the first `-`. */
  lemma TailOfToken(token: string)
    requires |Split(token, TOKEN_DELIMITER)| >= 2
    ensures var sid := Split(token, TOKEN_DELIMITER)[0];
            && |sid| < |token| && token == AccessTokenText(sid, token[|sid| + 1..])
            && Split(token[|sid| + 1..], TOKEN_DELIMITER) == Split(token, TOKEN_DELIMITER)[1..]
  {
    var split := Split(token, TOKEN_DELIMITER);
    var tail := Join(split[1..], TOKEN_DELIMITER);
    assert token == split[0] + [TOKEN_DELIMITER] + tail;
    assert token[|split[0]| + 1..] == tail;
    SplitFirst(split[0], TOKEN_DELIMITER, tail);
  }

  lemma PartOfTail(sid: string, tail: string, id: string, sep: char)
    ensures StartsWithPart(AccessTokenText(sid, tail), AccessTokenText(sid, id), sep) <==> StartsWithPart(tail, id, sep)
  {
    var token, text := AccessTokenText(sid, tail), AccessTokenText(sid, id);
    assert forall k :: 0 <= k < |tail| ==> token[|sid| + 1 + k] == tail[k];
    assert forall k :: 0 <= k < |id| ==> text[|sid| + 1 + k] == id[k];
    if HasPrefix(token, text) {
      assert forall k :: 0 <= k < |id| ==> tail[k] == id[k];
    }
    if HasPrefix(tail, id) {
      assert tail == id + tail[|id|..];
      assert token == text + tail[|id|..];
    }
  }

  /** The refresh parser accepts exactly `<session>-<id>`, alone or followed by a `-` or a `:` and anything. */
  lemma AcceptedForRefresh(token: string, ids: RefreshTokenIDs)
    ensures ParseRefreshToken(token) == Ok(ids) <==>
            && TOKEN_DELIMITER !in ids.oidcSessionID && PlainID(ids.refreshTokenID) && HasPrefix(ids.refreshTokenID, "rt_")
            && var text := AccessTokenText(ids.oidcSessionID, ids.refreshTokenID);
               StartsWithPart(token, text, TOKEN_DELIMITER) || StartsWithPart(token, text, SUBJECT_DELIMITER)
    ensures ParseRefreshToken(token).Err? ==> ParseRefreshToken(token).error == PreconditionFailed("OIDCS-JOI23")
  {
    var sid, id := ids.oidcSessionID, ids.refreshTokenID;
    var text, split := AccessTokenText(sid, id), Split(token, TOKEN_DELIMITER);
    if ParseRefreshToken(token) == Ok(ids) {
      ParsedIDsPrefixed(token);
      FirstPart(split[1], id, SUBJECT_DELIMITER);
      TailOfToken(token);
      SecondOfTail(token[|sid| + 1..], id);
      PartOfTail(sid, token[|sid| + 1..], id, TOKEN_DELIMITER);
      PartOfTail(sid, token[|sid| + 1..], id, SUBJECT_DELIMITER);
    }
    if TOKEN_DELIMITER !in sid && PlainID(id) && HasPrefix(id, REFRESH_TOKEN_PREFIX)
       && (StartsWithPart(token, text, TOKEN_DELIMITER) || StartsWithPart(token, text, SUBJECT_DELIMITER)) {
      var tail := token[|sid| + 1..];
      assert token == AccessTokenText(sid, tail) by {
        assert token == text + token[|text|..];
      }
      PartOfTail(sid, tail, id, TOKEN_DELIMITER);
      PartOfTail(sid, tail, id, SUBJECT_DELIMITER);
      SplitFirst(sid, TOKEN_DELIMITER, tail);
      SecondOfTail(tail, id);
    }
  }
}
