/** Quoting a string so that the argument splitter reads it back, from sds.c. */
module SplitArgs {
  import opened Options
  import opened Decimal

  const BEL: byte := 7
  const BS: byte := 8
  const DQUOTE: byte := 34
  const SQUOTE: byte := 39
  const BACKSLASH: byte := 92

  /** `isprint` in the C locale. */
  predicate IsPrint(b: byte) {
    32 <= b <= 126
  }

  // ---------------------------------------------------------------- quoting

  function HexDigit(n: nat): byte
    requires n < 16
  {
    if n < 10 then 48 + n else 87 + n
  }

  function Escape(b: byte): seq<byte> {
    if b == BACKSLASH || b == DQUOTE then [BACKSLASH, b]
    else if b == LF then [BACKSLASH, 110]
    else if b == CR then [BACKSLASH, 114]
    else if b == TAB then [BACKSLASH, 116]
    else if b == BEL then [BACKSLASH, 97]
    else if b == BS then [BACKSLASH, 98]
    else if IsPrint(b) then [b]
    else [BACKSLASH, 120, HexDigit(b / 16), HexDigit(b % 16)]
  }

  /** A printable byte but the quote and the backslash stands for itself; these two and the line feed, carriage
      return, tab, bell and backspace take two bytes, any other byte four. */
  lemma EscapeText(b: byte)
    ensures Escape(b) == [b] <==> 32 <= b <= 126 && b != 34 && b != 92
    ensures |Escape(b)| == 2 <==> b in {34, 92, 10, 13, 9, 7, 8}
    ensures |Escape(b)| == 2 ==>
            Escape(b) == [92, match b case 10 => 110 case 13 => 114 case 9 => 116 case 7 => 97 case 8 => 98 case _ => b]
    ensures |Escape(b)| in {1, 2, 4} && forall i :: 0 <= i < |Escape(b)| ==> 32 <= Escape(b)[i] <= 126
  {
  }

  function EscapeAll(s: seq<byte>): seq<byte> {
    if s == [] then [] else Escape(s[0]) + EscapeAll(s[1..])
  }

  /** sdscatrepr onto an empty string. */
  function Repr(s: seq<byte>): seq<byte> {
    [DQUOTE] + EscapeAll(s) + [DQUOTE]
  }

  /** sdsneedsrepr. */
  predicate NeedsRepr(s: seq<byte>) {
    exists i :: 0 <= i < |s| && (s[i] == BACKSLASH || s[i] == DQUOTE || !IsPrint(s[i]) || IsSpace(s[i]))
  }

  // ---------------------------------------------------------------- splitting

  predicate IsHex(b: byte) {
    48 <= b <= 57 || 97 <= b <= 102 || 65 <= b <= 70
  }

  function HexValue(b: byte): (v: nat)
    requires IsHex(b)
    ensures v < 16
  {
    if b <= 57 then b - 48 else if b >= 97 then b - 87 else b - 55
  }

  /** Hexadecimal digits in either case. */
  lemma HexDigits(n: nat)
    requires n < 16
    ensures n < 10 ==> IsHex(48 + n) && HexValue(48 + n) == n
    ensures n >= 10 ==> IsHex(97 + n - 10) && HexValue(97 + n - 10) == n && IsHex(65 + n - 10) && HexValue(65 + n - 10) == n
    ensures forall b: byte :: IsHex(b) ==> b < 103 && (b < 58 || b >= 97 || 65 <= b < 71) && b >= 48
  {
  }

  function Unescaped(b: byte): byte {
    if b == 110 then LF else if b == 114 then CR else if b == 116 then TAB
    else if b == 98 then BS else if b == 97 then BEL else b
  }

  datatype Quote = Plain | Double | Single

  datatype Token = Token(text: seq<byte>, rest: seq<byte>) | BadToken

  /** Reading one token, `cur` of it read already. Strings end where C strings do. */
  function ReadToken(s: seq<byte>, cur: seq<byte>, q: Quote): (r: Token)
    ensures r.Token? ==> |r.rest| <= |s|
    decreases |s|
  {
    match q
    case Double =>
      if s == [] then BadToken
      else if |s| >= 4 && s[0] == BACKSLASH && s[1] == 120 && IsHex(s[2]) && IsHex(s[3]) then
        ReadToken(s[4..], cur + [HexValue(s[2]) * 16 + HexValue(s[3])], Double)
      else if |s| >= 2 && s[0] == BACKSLASH then
        ReadToken(s[2..], cur + [Unescaped(s[1])], Double)
      else if s[0] == DQUOTE then
        if |s| >= 2 && !IsSpace(s[1]) then BadToken else Token(cur, s[1..])
      else ReadToken(s[1..], cur + [s[0]], Double)
    case Single =>
      if s == [] then BadToken
      else if |s| >= 2 && s[0] == BACKSLASH && s[1] == SQUOTE then
        ReadToken(s[2..], cur + [SQUOTE], Single)
      else if s[0] == SQUOTE then
        if |s| >= 2 && !IsSpace(s[1]) then BadToken else Token(cur, s[1..])
      else ReadToken(s[1..], cur + [s[0]], Single)
    case Plain =>
      if s == [] then Token(cur, [])
      else if s[0] == SPACE || s[0] == LF || s[0] == CR || s[0] == TAB then Token(cur, s[1..])
      else if s[0] == DQUOTE then ReadToken(s[1..], cur, Double)
      else if s[0] == SQUOTE then ReadToken(s[1..], cur, Single)
      else ReadToken(s[1..], cur + [s[0]], Plain)
  }

  lemma {:induction false} ReadTokenShrinks(s: seq<byte>, cur: seq<byte>, q: Quote)
    requires s != []
    ensures var r := ReadToken(s, cur, q); r.Token? ==> |r.rest| < |s|
  {
  }

  lemma {:induction false} SkipSpacesShrinks(s: seq<byte>)
    ensures |SkipSpaces(s)| <= |s|
  {
    if s != [] && IsSpace(s[0]) { SkipSpacesShrinks(s[1..]); }
  }

  /** sdssplitargs. */
  function Split(s: seq<byte>): Option<seq<seq<byte>>>
    decreases |s|
  {
    var t := SkipSpaces(s);
    SkipSpacesShrinks(s);
    if t == [] then Some([]) else
    ReadTokenShrinks(t, [], Plain);
    match ReadToken(t, [], Plain)
    case BadToken => None
    case Token(x, rest) =>
      match Split(rest)
      case None => None
      case Some(more) => Some([x] + more)
  }

  // ---------------------------------------------------------------- reading back

  /** A character that stands for itself outside quotes. */
  predicate IsPlain(b: byte) {
    !IsSpace(b) && b != DQUOTE && b != SQUOTE && b != NUL
  }

  predicate PlainWord(w: seq<byte>) {
    w != [] && forall i :: 0 <= i < |w| ==> IsPlain(w[i])
  }

  lemma {:induction false} ReadPlain(w: seq<byte>, rest: seq<byte>, cur: seq<byte>)
    requires forall i :: 0 <= i < |w| ==> IsPlain(w[i])
    requires rest == [] || rest[0] == SPACE
    ensures ReadToken(w + rest, cur, Plain) == Token(cur + w, if rest == [] then [] else rest[1..])
  {
    if w == [] {
      assert w + rest == rest && cur + w == cur;
    } else {
      assert (w + rest)[1..] == w[1..] + rest;
      ReadPlain(w[1..], rest, cur + [w[0]]);
      assert cur + [w[0]] + w[1..] == cur + w;
    }
  }

  lemma UnescapeStep(b: byte, rest: seq<byte>, cur: seq<byte>)
    requires rest != []
    ensures ReadToken(Escape(b) + rest, cur, Double) == ReadToken(rest, cur + [b], Double)
  {
    var e := Escape(b);
    var s := e + rest;
    assert s[|e|..] == rest;
    if e[0] == BACKSLASH && |e| == 4 {
      assert s[0] == BACKSLASH && s[1] == 120 && s[2] == HexDigit(b / 16) && s[3] == HexDigit(b % 16);
      assert HexValue(s[2]) * 16 + HexValue(s[3]) == b;
    } else if |e| == 2 {
      assert s[0] == BACKSLASH && s[1] == e[1] && e[1] != 120;
      assert Unescaped(s[1]) == b;
    } else {
      assert s[0] == b && b != BACKSLASH && b != DQUOTE;
    }
  }

  lemma CloseQuote(rest: seq<byte>, cur: seq<byte>)
    requires rest == [] || IsSpace(rest[0])
    ensures ReadToken([DQUOTE] + rest, cur, Double) == Token(cur, rest)
  {
    assert ([DQUOTE] + rest)[1..] == rest;
  }

  lemma {:induction false} ReadEscaped(s: seq<byte>, rest: seq<byte>, cur: seq<byte>)
    requires rest == [] || IsSpace(rest[0])
    ensures ReadToken(EscapeAll(s) + ([DQUOTE] + rest), cur, Double) == Token(cur + s, rest)
  {
    hide ReadToken, Escape;
    var tail := [DQUOTE] + rest;
    if s == [] {
      assert EscapeAll(s) + tail == tail && cur + s == cur;
      CloseQuote(rest, cur);
    } else {
      assert EscapeAll(s) + tail == Escape(s[0]) + (EscapeAll(s[1..]) + tail);
      UnescapeStep(s[0], EscapeAll(s[1..]) + tail, cur);
      ReadEscaped(s[1..], rest, cur + [s[0]]);
      assert cur + [s[0]] + s[1..] == cur + s;
    }
  }

  /** A quoted string is read back, whatever bytes it holds. */
  lemma ReadRepr(s: seq<byte>, rest: seq<byte>)
    requires rest == [] || IsSpace(rest[0])
    ensures ReadToken(Repr(s) + rest, [], Plain) == Token(s, rest)
  {
    hide ReadToken, EscapeAll;
    var t := Repr(s) + rest;
    assert t == [DQUOTE] + (EscapeAll(s) + ([DQUOTE] + rest));
    OpenQuote(EscapeAll(s) + ([DQUOTE] + rest));
    ReadEscaped(s, rest, []);
    assert [] + s == s;
  }

  lemma OpenQuote(s: seq<byte>)
    ensures ReadToken([DQUOTE] + s, [], Plain) == ReadToken(s, [], Double)
  {
    assert ([DQUOTE] + s)[1..] == s;
  }

  // ---------------------------------------------------------------- words on a line

  /** How the manifest writes a word: quoted if the writer thinks it has to be. */
  function Word(w: seq<byte>): seq<byte> {
    if NeedsRepr(w) then Repr(w) else w
  }

  /** The words the writer and the splitter agree on: a single quote is only safe in a word
      that some other character causes to be quoted. */
  predicate Safe(w: seq<byte>) {
    w != [] && (NeedsRepr(w) || SQUOTE !in w)
  }

  function Join(ws: seq<seq<byte>>): seq<byte> {
    if ws == [] then []
    else if |ws| == 1 then Word(ws[0])
    else Word(ws[0]) + [SPACE] + Join(ws[1..])
  }

  lemma SafePlain(w: seq<byte>)
    requires Safe(w) && !NeedsRepr(w)
    ensures PlainWord(w)
  {
  }

  lemma ReadWord(w: seq<byte>, rest: seq<byte>)
    requires Safe(w) && (rest == [] || rest[0] == SPACE)
    ensures var r := ReadToken(Word(w) + rest, [], Plain);
            r.Token? && r.text == w && (r.rest == rest || (rest != [] && r.rest == rest[1..]))
    ensures Word(w) != [] && !IsSpace(Word(w)[0])
  {
    if NeedsRepr(w) {
      ReadRepr(w, rest);
    } else {
      SafePlain(w);
      ReadPlain(w, rest, []);
      assert [] + w == w;
    }
  }

  lemma SplitStep(s: seq<byte>)
    requires s != [] && !IsSpace(s[0]) && ReadToken(s, [], Plain).Token?
    ensures var r := ReadToken(s, [], Plain);
            Split(s) == match Split(r.rest) case None => None case Some(more) => Some([r.text] + more)
  {
  }

  lemma SplitSpace(s: seq<byte>)
    ensures Split([SPACE] + s) == Split(s)
  {
    assert ([SPACE] + s)[1..] == s;
  }

  /** Splitting inverts joining. */
  lemma {:induction false} SplitOfJoin(ws: seq<seq<byte>>)
    requires forall i :: 0 <= i < |ws| ==> Safe(ws[i])
    ensures Split(Join(ws)) == Some(ws)
  {
    hide ReadToken, Word, Safe;
    if ws != [] {
      var s := Join(ws);
      assert Safe(ws[0]);
      if |ws| == 1 {
        ReadWord(ws[0], []);
        assert Word(ws[0]) + [] == s;
        SplitStep(s);
        assert Split([]) == Some([]);
        assert [ws[0]] + [] == ws;
      } else {
        var rest := [SPACE] + Join(ws[1..]);
        assert s == Word(ws[0]) + rest;
        ReadWord(ws[0], rest);
        SplitStep(s);
        SplitSpace(Join(ws[1..]));
        assert rest[1..] == Join(ws[1..]);
        SplitOfJoin(ws[1..]);
        assert [ws[0]] + ws[1..] == ws;
      }
    }
  }

  // ---------------------------------------------------------------- the exact condition

  /** Inside single quotes the token only grows. */
  lemma {:induction false} ReadSingleGrows(s: seq<byte>, cur: seq<byte>)
    ensures var r := ReadToken(s, cur, Single); r.Token? ==> cur <= r.text
    decreases |s|
  {
    if s != [] {
      if |s| >= 2 && s[0] == BACKSLASH && s[1] == SQUOTE {
        ReadSingleGrows(s[2..], cur + [SQUOTE]);
      } else if s[0] != SQUOTE {
        ReadSingleGrows(s[1..], cur + [s[0]]);
      }
    }
  }

  lemma {:induction false} SingleStaysOpen(s: seq<byte>, cur: seq<byte>)
    requires SQUOTE !in s
    ensures ReadToken(s, cur, Single).BadToken?
    decreases |s|
  {
    if s != [] {
      SingleStaysOpen(s[1..], cur + [s[0]]);
    }
  }

  /** What follows an opening single quote: the token ends early or swallows the blank, which it
      only does when another quote comes later. */
  lemma {:induction false} ReadSingle(w: seq<byte>, rest: seq<byte>, cur: seq<byte>)
    requires !NeedsRepr(w) && (rest == [] || rest[0] == SPACE)
    ensures var r := ReadToken(w + rest, cur, Single);
            r.Token? ==> (|r.text| < |cur| + |w| && r.rest == rest) || (SPACE in r.text && SQUOTE in rest)
    decreases |w|
  {
    var s := w + rest;
    if w == [] {
      assert s == rest;
      if SQUOTE !in rest {
        SingleStaysOpen(rest, cur);
      } else {
        var c := cur + [SPACE];
        assert c[|cur|] == SPACE;
        ReadSingleGrows(rest[1..], c);
      }
    } else {
      assert s[0] == w[0] && s[1..] == w[1..] + rest;
      NoReprTail(w);
      if w[0] != SQUOTE {
        ReadSingle(w[1..], rest, cur + [w[0]]);
      } else if |w| > 1 {
        assert s[1] == w[1];
      }
    }
  }

  lemma NoReprTail(w: seq<byte>)
    requires w != [] && !NeedsRepr(w)
    ensures !NeedsRepr(w[1..]) && w[0] != BACKSLASH && (|w| > 1 ==> !IsSpace(w[1]))
  {
    assert forall i :: 0 <= i < |w| ==> IsPrint(w[i]) && !IsSpace(w[i]) && w[i] != BACKSLASH && w[i] != DQUOTE;
    assert forall i :: 0 <= i < |w[1..]| ==> w[1..][i] == w[i + 1];
  }

  lemma {:induction false} ReadUnsafe(w: seq<byte>, cur: seq<byte>, rest: seq<byte>)
    requires !NeedsRepr(w) && SQUOTE in w && SPACE !in cur
    requires rest == [] || rest[0] == SPACE
    ensures var r := ReadToken(w + rest, cur, Plain);
            r.Token? ==> r.text != cur + w && (SQUOTE !in rest ==> |r.text| < |cur| + |w| && r.rest == rest)
    decreases |w|
  {
    var s := w + rest;
    assert forall i :: 0 <= i < |w| ==> IsPrint(w[i]) && !IsSpace(w[i]) && w[i] != BACKSLASH && w[i] != DQUOTE;
    assert s[0] == w[0] && s[1..] == w[1..] + rest;
    NoReprTail(w);
    if w[0] == SQUOTE {
      ReadSingle(w[1..], rest, cur);
      assert SPACE !in cur + w;
    } else {
      assert SQUOTE in w[1..];
      ReadUnsafe(w[1..], cur + [w[0]], rest);
      assert cur + [w[0]] + w[1..] == cur + w;
    }
  }

  /** A non-empty word is read back from a line if and only if it is safe. */
  lemma WordRoundTrip(w: seq<byte>, rest: seq<byte>)
    requires w != [] && (rest == [] || rest[0] == SPACE)
    ensures var r := ReadToken(Word(w) + rest, [], Plain); (r.Token? && r.text == w) <==> Safe(w)
  {
    if Safe(w) {
      ReadWord(w, rest);
    } else {
      ReadUnsafe(w, [], rest);
      assert [] + w == w;
    }
  }
}
