/** The error text a failed push send produces, and the status the worker reads back from it. */
module FcmError {
  import opened Text

  /** The Display form of the internal error `send_to_token` returns on a non-success answer. */
  function SendError(http: nat, code: string, body: string): string {
    "internal: fcm http " + PrintNat(http) + " status=" + code + " body=" + body
  }

  const STATUS_PREFIX := "status="

  predicate StartsWith(s: string, p: string) {
    |p| <= |s| && s[..|p|] == p
  }

  /** The first word with the prefix `status=`, stripped of it; empty if there is none. */
  function StatusIn(words: seq<string>): string {
    if words == [] then ""
    else if StartsWith(words[0], STATUS_PREFIX) then words[0][|STATUS_PREFIX|..]
    else StatusIn(words[1..])
  }

  function ParseStatus(msg: string): string {
    StatusIn(SplitWhitespace(msg))
  }

  predicate IsDeadToken(code: string) {
    code == "UNREGISTERED" || code == "INVALID_ARGUMENT"
    || code == "SENDER_ID_MISMATCH" || code == "THIRD_PARTY_AUTH_ERROR"
  }

  lemma SkipWord(w: string, rest: string)
    requires w != "" && NoSpace(w) && !StartsWith(w, STATUS_PREFIX)
    ensures StatusIn(SplitWhitespace(w + " " + rest)) == StatusIn(SplitWhitespace(rest))
  {
    SplitWord(w, " " + rest);
    assert w + " " + rest == w + (" " + rest);
    assert (" " + rest)[1..] == rest;
  }

  lemma DigitsAreNoSpace(s: string)
    requires AllDigits(s)
    ensures NoSpace(s) && !StartsWith(s, STATUS_PREFIX)
  {
    assert |s| >= 7 ==> s[..7][0] == s[0] && s[0] != STATUS_PREFIX[0];
  }

  lemma RegroupWords(a: string, b: string, c: string, sp: string, rest: string)
    ensures a + sp + b + sp + c + sp + rest == a + sp + (b + sp + (c + sp + rest))
  {
  }

  lemma SkipThree(a: string, b: string, c: string, rest: string)
    requires a != "" && NoSpace(a) && !StartsWith(a, STATUS_PREFIX)
    requires b != "" && NoSpace(b) && !StartsWith(b, STATUS_PREFIX)
    requires c != "" && NoSpace(c) && !StartsWith(c, STATUS_PREFIX)
    ensures StatusIn(SplitWhitespace(a + " " + b + " " + c + " " + rest)) == StatusIn(SplitWhitespace(rest))
  {
    SkipWord(c, rest);
    SkipWord(b, c + " " + rest);
    SkipWord(a, b + " " + (c + " " + rest));
    RegroupWords(a, b, c, " ", rest);
  }

  lemma PlainWord(w: string)
    requires w == "internal:" || w == "fcm" || w == "http"
    ensures w != "" && NoSpace(w) && !StartsWith(w, STATUS_PREFIX)
  {
    assert |w| >= 7 ==> w[..7][0] == w[0] && w[0] != STATUS_PREFIX[0];
  }

  lemma HeadWords(rest: string)
    ensures "internal: fcm http " + rest == "internal:" + " " + "fcm" + " " + "http" + " " + rest
  {
    assert "internal: fcm http " == "internal:" + " " + "fcm" + " " + "http" + " ";
  }

  lemma SkipHead(rest: string)
    ensures StatusIn(SplitWhitespace("internal: fcm http " + rest)) == StatusIn(SplitWhitespace(rest))
  {
    var a, b, c := "internal:", "fcm", "http";
    PlainWord(a);
    PlainWord(b);
    PlainWord(c);
    SkipThree(a, b, c, rest);
    HeadWords(rest);
  }

  lemma StatusWord(code: string, rest: string)
    requires NoSpace(code) && (rest == "" || IsSpace(rest[0]))
    ensures StatusIn(SplitWhitespace(STATUS_PREFIX + code + rest)) == code
  {
    var w := STATUS_PREFIX + code;
    SplitWord(w, rest);
    assert w[..|STATUS_PREFIX|] == STATUS_PREFIX && w[|STATUS_PREFIX|..] == code;
  }

  lemma Regroup(h: string, d: string, sp: string, st: string, c1: string, c2: string, tag: string, b: string)
    ensures h + d + (sp + st) + (c1 + c2) + tag + b == h + (d + sp + (st + c1 + (c2 + tag + b)))
  {
  }

  /** The status the worker reads is the printed one up to its first space. */
  lemma ParseStatusOfSendError(http: nat, code: string, body: string)
    ensures ParseStatus(SendError(http, code, body)) == code[..WordEnd(code)]
  {
    var n, digits := WordEnd(code), PrintNat(http);
    var c1, c2 := code[..n], code[n..];
    WordEndIsFirstSpace(code);
    assert code == c1 + c2 && " status=" == " " + STATUS_PREFIX;
    Regroup("internal: fcm http ", digits, " ", STATUS_PREFIX, c1, c2, " body=", body);
    ReadsWord(digits, c1, c2 + " body=" + body, http);
  }

  lemma ReadsWord(digits: string, code: string, after: string, http: nat)
    requires digits == PrintNat(http) && NoSpace(code) && after != "" && IsSpace(after[0])
    ensures ParseStatus("internal: fcm http " + (digits + " " + (STATUS_PREFIX + code + after))) == code
  {
    ParsePrint(http);
    DigitsAreNoSpace(digits);
    SkipHead(digits + " " + (STATUS_PREFIX + code + after));
    SkipWord(digits, STATUS_PREFIX + code + after);
    StatusWord(code, after);
  }

  /** Every status without whitespace is read back exactly, whatever the body says; any other
      status is not. */
  lemma StatusSurvivesIffNoSpace(http: nat, code: string, body: string)
    ensures ParseStatus(SendError(http, code, body)) == code <==> NoSpace(code)
  {
    ParseStatusOfSendError(http, code, body);
    WordEndIsFirstSpace(code);
    if code[..WordEnd(code)] == code {
      assert WordEnd(code) == |code|;
    }
  }

  /** A failed send kills its token exactly when the status FCM gave, up to its first
      whitespace, is one of these four. */
  lemma DeadIff(http: nat, code: string, body: string)
    ensures IsDeadToken(ParseStatus(SendError(http, code, body))) <==>
      code[..WordEnd(code)] in {"UNREGISTERED", "INVALID_ARGUMENT", "SENDER_ID_MISMATCH", "THIRD_PARTY_AUTH_ERROR"}
  {
    ParseStatusOfSendError(http, code, body);
  }
}
