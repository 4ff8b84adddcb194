/** Page limits and the printed keyset cursor. */
module Cursor {
  import opened Common
  import opened Text

  const I64_MIN := -0x8000_0000_0000_0000
  const I64_MAX := 0x7fff_ffff_ffff_ffff

  const DEFAULT_LIMIT := 20
  const MAX_LIMIT := 50

  /** The sort key of a row. */
  datatype Key = Key(at: int, id: string)

  predicate IsI64(n: int) { I64_MIN <= n <= I64_MAX }

  function Distance(x: int, y: int): nat {
    if x < y then y - x else x - y
  }

  /** The number in 1..50 nearest to the requested limit; 20 when none is requested. */
  function Limit(limit: Option<int>): (n: nat)
    ensures 1 <= n <= 50
    ensures limit.None? ==> n == 20
    ensures limit.Some? ==> forall m :: 1 <= m <= 50 ==> Distance(n, limit.value) <= Distance(m, limit.value)
  {
    var n := match limit case None => DEFAULT_LIMIT case Some(n) => n;
    if n < 1 then 1 else if n > MAX_LIMIT then MAX_LIMIT else n
  }

  function PrintInt(n: int): string {
    if n < 0 then "-" + PrintNat(-n) else PrintNat(n)
  }

  /** A sign or none, at least one digit, and in range. */
  function ParseI64(s: string): Option<int> {
    var signed := s != "" && (s[0] == '-' || s[0] == '+');
    var digits := if signed then s[1..] else s;
    if digits == "" || !AllDigits(digits) then None
    else
      var n: int := if signed && s[0] == '-' then -1 * ParseNat(digits) else ParseNat(digits);
      if IsI64(n) then Some(n) else None
  }

  /** The position of the first comma, or the length if there is none. */
  function CommaAt(s: string): (n: nat)
    ensures n <= |s|
  {
    if s == "" || s[0] == ',' then 0 else 1 + CommaAt(s[1..])
  }

  const SENTINEL := Key(I64_MAX, "~")

  /** `Page::keyset`: anything that is not "integer,id" means the first page. */
  function Keyset(cursor: Option<string>): Key {
    match cursor
    case None => SENTINEL
    case Some(c) =>
      var n := CommaAt(c);
      if n == |c| then SENTINEL
      else match ParseI64(c[..n])
        case None => SENTINEL
        case Some(ts) => Key(ts, c[n + 1..])
  }

  /** The comment list's own reading of a cursor: it keeps the id when the number is bad. */
  function CommentKeyset(cursor: Option<string>): Key {
    match cursor
    case None => SENTINEL
    case Some(c) =>
      var n := CommaAt(c);
      if n == |c| then SENTINEL
      else match ParseI64(c[..n])
        case None => Key(I64_MAX, c[n + 1..])
        case Some(ts) => Key(ts, c[n + 1..])
  }

  function CursorOf(k: Key): string {
    PrintInt(k.at) + "," + k.id
  }

  lemma {:induction false} CommaAfter(s: string, rest: string)
    requires forall i :: 0 <= i < |s| ==> s[i] != ','
    ensures CommaAt(s + "," + rest) == |s|
  {
    if s == "" {
      assert (s + "," + rest)[0] == ',';
    } else {
      assert (s + "," + rest)[1..] == s[1..] + "," + rest;
      CommaAfter(s[1..], rest);
    }
  }

  lemma ParseSigned(digits: string, n: int)
    requires digits != "" && AllDigits(digits) && ParseNat(digits) == n
    ensures IsI64(-n) ==> ParseI64("-" + digits) == Some(-n)
    ensures IsI64(n) ==> ParseI64(digits) == Some(n)
  {
    assert ("-" + digits)[0] == '-' && ("-" + digits)[1..] == digits;
    assert IsDigit(digits[0]);
  }

  lemma ParsePrintedInt(n: int)
    requires IsI64(n)
    ensures ParseI64(PrintInt(n)) == Some(n)
    ensures forall i :: 0 <= i < |PrintInt(n)| ==> PrintInt(n)[i] != ','
  {
    var abs := if n < 0 then -n else n;
    ParsePrint(abs);
    ParseSigned(PrintNat(abs), abs);
  }

  /** The texts that are read as a number: an optional sign and at least one digit, in range. */
  lemma ParsesIff(s: string)
    ensures var sign := s != "" && (s[0] == '-' || s[0] == '+');
      var digits := if sign then s[1..] else s;
      && (ParseI64(s).Some? ==> digits != "" && forall i :: 0 <= i < |digits| ==> '0' <= digits[i] <= '9')
      && (digits != "" && (forall i :: 0 <= i < |digits| ==> '0' <= digits[i] <= '9') ==>
            (ParseI64(s).Some? <==> ParseNat(digits) <= if sign && s[0] == '-' then 0x8000_0000_0000_0000 else 0x7fff_ffff_ffff_ffff))
      && (ParseI64(s).Some? ==> ParseI64(s).value == if sign && s[0] == '-' then -1 * ParseNat(digits) else ParseNat(digits))
  {
  }

  /** Without a comma both readers start from the first page. With one, a number before it is
      used by both; anything else sends the general reader to the first page, while the comment
      list keeps the id and takes the greatest timestamp. */
  lemma CursorReaders(c: string, n: nat)
    requires n <= |c| && (forall i :: 0 <= i < n ==> c[i] != ',') && (n < |c| ==> c[n] == ',')
    ensures var first := Key(0x7fff_ffff_ffff_ffff, "~");
      && Keyset(None) == CommentKeyset(None) == first
      && (n == |c| ==> Keyset(Some(c)) == CommentKeyset(Some(c)) == first)
      && (n < |c| && ParseI64(c[..n]).Some? ==>
            Keyset(Some(c)) == CommentKeyset(Some(c)) == Key(ParseI64(c[..n]).value, c[n + 1..]))
      && (n < |c| && ParseI64(c[..n]).None? ==>
            Keyset(Some(c)) == first && CommentKeyset(Some(c)) == Key(0x7fff_ffff_ffff_ffff, c[n + 1..]))
  {
    CommaIs(c, n);
  }

  lemma {:induction false} CommaIs(s: string, n: nat)
    requires n <= |s| && (forall i :: 0 <= i < n ==> s[i] != ',') && (n < |s| ==> s[n] == ',')
    ensures CommaAt(s) == n
  {
    if n > 0 { CommaIs(s[1..], n - 1); }
  }

  /** Every key with a 64-bit timestamp, whatever its id contains, survives being printed as a
      cursor and read back, by either reader. */
  lemma CursorRoundTrip(k: Key)
    requires IsI64(k.at)
    ensures Keyset(Some(CursorOf(k))) == k && CommentKeyset(Some(CursorOf(k))) == k
  {
    var s := PrintInt(k.at);
    ParsePrintedInt(k.at);
    CommaAfter(s, k.id);
    assert CursorOf(k)[..|s|] == s && CursorOf(k)[|s| + 1..] == k.id;
  }
}
