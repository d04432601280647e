/**
 * parseCommand and parseCommandRotate: a command line is split into
 * tokens at spaces, tabs and newlines (as strtok with " \t\n" does), the
 * command word is matched after lowering, and a rotate command takes a
 * direction and two positive numbers read with strtol.
 */
module Commands {
  import opened Pipes
  import opened Boards
  import opened Ascii

  datatype Option<T> = None | Some(value: T)

  /** The commands of the game; NoCommand is an empty or blank line. */
  datatype Command = NoCommand | Rotate(dir: Direction, row: u8, col: u8) | Help | Quit | Restart

  /**
   * What parseCommand returns: NULL with the command set, 1 for a rotate
   * command with bad arguments, or the (lowered) unknown command word.
   */
  datatype ParseResult = Parsed(command: Command) | RotateUsage | UnknownCommand(token: string)

  /** The delimiters " \t\n" of every strtok call. */
  predicate IsSeparator(c: char) {
    c == ' ' || c == '\t' || c == '\n'
  }

  predicate IsToken(t: string) {
    |t| > 0 && forall i :: 0 <= i < |t| ==> !IsSeparator(t[i])
  }

  /**
   * The tokens successive strtok calls return from the rest `s` of the
   * line, `current` being the part of a token already read: a separator
   * ends the current token (if any), every other character extends it.
   */
  function Split(s: string, current: string): seq<string>
    decreases |s|
  {
    if s == [] then (if current == [] then [] else [current])
    else if IsSeparator(s[0]) then (if current == [] then Split(s[1..], []) else [current] + Split(s[1..], []))
    else Split(s[1..], current + [s[0]])
  }

  /** The tokens of a line, in order. */
  function Tokens(s: string): seq<string> {
    Split(s, [])
  }

  /** Tokens joined by single spaces. */
  function Join(ts: seq<string>): string {
    if ts == [] then [] else if |ts| == 1 then ts[0] else ts[0] + " " + Join(ts[1..])
  }

  lemma {:induction false} SplitGivesTokens(s: string, current: string)
    requires forall i :: 0 <= i < |current| ==> !IsSeparator(current[i])
    ensures forall k :: 0 <= k < |Split(s, current)| ==> IsToken(Split(s, current)[k])
    decreases |s|
  {
    if s != [] {
      if IsSeparator(s[0]) {
        SplitGivesTokens(s[1..], []);
      } else {
        var next := current + [s[0]];
        assert forall i :: 0 <= i < |next| ==> next[i] == if i < |current| then current[i] else s[0];
        SplitGivesTokens(s[1..], next);
      }
    }
  }

  /** Every token is non-empty and holds no separator. */
  lemma TokensAreTokens(s: string)
    ensures forall k :: 0 <= k < |Tokens(s)| ==> IsToken(Tokens(s)[k])
  {
    SplitGivesTokens(s, []);
  }

  lemma {:induction false} SplitIsEmptyIffBlank(s: string, current: string)
    ensures Split(s, current) == [] <==> current == [] && forall i :: 0 <= i < |s| ==> IsSeparator(s[i])
    decreases |s|
  {
    if s != [] {
      if IsSeparator(s[0]) {
        SplitIsEmptyIffBlank(s[1..], []);
        assert forall i :: 1 <= i < |s| ==> s[i] == s[1..][i - 1];
      } else {
        SplitIsEmptyIffBlank(s[1..], current + [s[0]]);
      }
    }
  }

  /** There are no tokens exactly when the line is blank. */
  lemma NoTokensIffBlank(s: string)
    ensures Tokens(s) == [] <==> forall i :: 0 <= i < |s| ==> IsSeparator(s[i])
  {
    SplitIsEmptyIffBlank(s, []);
  }

  /** Reading the characters of a token only extends the current token. */
  lemma {:induction false} SplitReadsToken(t: string, rest: string, current: string)
    requires forall i :: 0 <= i < |t| ==> !IsSeparator(t[i])
    ensures Split(t + rest, current) == Split(rest, current + t)
    decreases |t|
  {
    if t == [] {
      assert t + rest == rest && current + t == current;
    } else {
      assert (t + rest)[0] == t[0] && (t + rest)[1..] == t[1..] + rest;
      SplitReadsToken(t[1..], rest, current + [t[0]]);
      assert current + [t[0]] + t[1..] == current + t;
    }
  }

  lemma {:induction false} TokensOfJoinStep(t: string, tail: seq<string>)
    requires IsToken(t) && tail != [] && Tokens(Join(tail)) == tail
    ensures Tokens(Join([t] + tail)) == [t] + tail
  {
    var rest := Join(tail);
    var ts := [t] + tail;
    assert ts[0] == t && ts[1..] == tail;
    assert Join(ts) == t + (" " + rest);
    SplitReadsToken(t, " " + rest, []);
    assert [] + t == t;
    assert (" " + rest)[0] == ' ' && (" " + rest)[1..] == rest;
  }

  /** Splitting undoes joining: a list of tokens joined by spaces splits into the same list. */
  lemma {:induction false} TokensOfJoin(ts: seq<string>)
    requires forall k :: 0 <= k < |ts| ==> IsToken(ts[k])
    ensures Tokens(Join(ts)) == ts
    decreases |ts|
  {
    if |ts| == 1 {
      assert Join(ts) == ts[0] + [];
      SplitReadsToken(ts[0], [], []);
      assert [] + ts[0] == ts[0];
    } else if |ts| > 1 {
      TokensOfJoin(ts[1..]);
      TokensOfJoinStep(ts[0], ts[1..]);
      assert ts == [ts[0]] + ts[1..];
    }
  }

  /** isspace in the "C" locale: the characters strtol skips before a number. */
  predicate IsSpace(c: char) {
    c == ' ' || c == '\t' || c == '\n' || c == '\U{B}' || c == '\U{C}' || c == '\r'
  }

  predicate IsDigit(c: char) {
    '0' <= c <= '9'
  }

  function LeadingSpaces(s: string): (n: nat)
    ensures n <= |s| && (n == |s| || !IsSpace(s[n]))
    ensures forall i :: 0 <= i < n ==> IsSpace(s[i])
  {
    if s == [] || !IsSpace(s[0]) then 0 else 1 + LeadingSpaces(s[1..])
  }

  function LeadingDigits(s: string): (n: nat)
    ensures n <= |s| && (n == |s| || !IsDigit(s[n]))
    ensures forall i :: 0 <= i < n ==> IsDigit(s[i])
  {
    if s == [] || !IsDigit(s[0]) then 0 else 1 + LeadingDigits(s[1..])
  }

  function DigitValue(c: char): nat
    requires IsDigit(c)
  {
    c as int - '0' as int
  }

  /** The value of a string of decimal digits, most significant first. */
  function DigitsValue(ds: string): nat
    requires forall i :: 0 <= i < |ds| ==> IsDigit(ds[i])
  {
    if ds == [] then 0 else 10 * DigitsValue(ds[..|ds| - 1]) + DigitValue(ds[|ds| - 1])
  }

  /** LONG_MIN and LONG_MAX of a 64-bit long. */
  const LongMin := -0x8000_0000_0000_0000
  const LongMax := 0x7FFF_FFFF_FFFF_FFFF

  /** strtol's answer to an out-of-range number: the value clamped to the range of long. */
  function ClampToLong(v: int): (r: int)
    ensures LongMin <= r <= LongMax
    ensures LongMin <= v <= LongMax ==> r == v
  {
    if v > LongMax then LongMax else if v < LongMin then LongMin else v
  }

  /**
   * strtol(token, &end, 10): white space, an optional sign and the longest
   * run of digits; the value (clamped to the range of long on overflow) and
   * the offset of the first character not used. Without any digit the value
   * is 0 and nothing is used.
   */
  function StrToL(token: string): (r: (int, nat))
    ensures LongMin <= r.0 <= LongMax && r.1 <= |token|
  {
    var ws := LeadingSpaces(token);
    SignedNumber(token[ws..], ws)
  }

  /** strtol after the white space, which ends at offset `ws`: an optional sign and the longest run of digits. */
  function SignedNumber(rest: string, ws: nat): (r: (int, nat))
    ensures LongMin <= r.0 <= LongMax && r.1 <= ws + |rest|
  {
    var signLength := if |rest| > 0 && (rest[0] == '+' || rest[0] == '-') then 1 else 0;
    var negative := signLength == 1 && rest[0] == '-';
    var digits := LeadingDigits(rest[signLength..]);
    if digits == 0 then (0, 0)
    else
      var magnitude: int := DigitsValue(rest[signLength..][..digits]);
      var value := if negative then 0 - magnitude else magnitude;
      (ClampToLong(value), ws + signLength + digits)
  }

  /** The conversion of a long to int: the low 32 bits, read in two's complement. */
  function ToInt32(v: int): (r: int)
    ensures -0x8000_0000 <= r < 0x8000_0000
    ensures -0x8000_0000 <= v < 0x8000_0000 ==> r == v
  {
    var low := v % 0x1_0000_0000;
    if low < 0x8000_0000 then low else low - 0x1_0000_0000
  }

  /**
   * A row or column argument: `num = strtol(...)` must be at least 1 and the
   * character strtol stopped at must be one of " \t\n" or the terminating
   * NUL; the `(uint8_t)` cast keeps num modulo 256.
   */
  function ParseNumber(token: string): (r: Option<u8>)
    ensures (forall i :: 0 <= i < |token| ==> !IsDigit(token[i])) ==> r == None
  {
    var (value, end) := StrToL(token);
    var num := ToInt32(value);
    var stop := if end < |token| then token[end] else '\0';
    if num < 1 || !(IsSeparator(stop) || stop == '\0') then None else Some(num % 256)
  }

  /** The decimal digits of a positive number, most significant first. */
  function Decimal(n: nat): (ds: string)
    ensures forall i :: 0 <= i < |ds| ==> IsDigit(ds[i])
    ensures n > 0 ==> |ds| > 0 && ds[0] != '0'
  {
    if n < 10 then (if n == 0 then [] else [('0' as int + n) as char])
    else Decimal(n / 10) + [('0' as int + n % 10) as char]
  }

  lemma {:induction false} DigitsValueOfDecimal(n: nat)
    ensures DigitsValue(Decimal(n)) == n
  {
    if n >= 10 {
      var ds := Decimal(n);
      assert ds[..|ds| - 1] == Decimal(n / 10);
      DigitsValueOfDecimal(n / 10);
    }
  }

  /** What a number written plainly in decimal reads back as: itself modulo 256, for every int from 1 up. */
  lemma {:induction false} ParseNumberOfDecimal(n: nat)
    requires 1 <= n < 0x8000_0000
    ensures ParseNumber(Decimal(n)) == Some(n % 256)
  {
    var ds := Decimal(n);
    assert LeadingSpaces(ds) == 0;
    assert ds[0..] == ds;
    assert LeadingDigits(ds) == |ds| by {
      LeadingDigitsOfDigits(ds);
    }
    assert ds[..|ds|] == ds;
    DigitsValueOfDecimal(n);
  }

  /** The `(uint8_t)` cast keeps a number modulo 256: "257" reads as 1 and "256" as 0. */
  lemma LargeNumbersWrap()
    ensures ParseNumber("257") == Some(1)
    ensures ParseNumber("256") == Some(0)
  {
    assert Decimal(257) == "257";
    assert Decimal(256) == "256";
    ParseNumberOfDecimal(257);
    ParseNumberOfDecimal(256);
  }

  lemma {:induction false} LeadingDigitsOfDigits(ds: string)
    requires forall i :: 0 <= i < |ds| ==> IsDigit(ds[i])
    ensures LeadingDigits(ds) == |ds|
  {
  }

  lemma {:induction false} LeadingSpacesOfSpaces(ws: string, rest: string)
    requires forall i :: 0 <= i < |ws| ==> IsSpace(ws[i])
    requires rest == [] || !IsSpace(rest[0])
    ensures LeadingSpaces(ws + rest) == |ws|
    decreases |ws|
  {
    if ws == [] {
      assert ws + rest == rest;
    } else {
      assert (ws + rest)[0] == ws[0] && (ws + rest)[1..] == ws[1..] + rest;
      LeadingSpacesOfSpaces(ws[1..], rest);
    }
  }

  /**
   * What strtol and the checks make of a token written as white space, an
   * optional sign and decimal digits, leading zeros allowed: the signed
   * number, clamped to long and cut to an int, is accepted exactly when it
   * is at least 1, and is then kept modulo 256.
   */
  lemma {:induction false} ParseNumberOfWritten(ws: string, sign: string, ds: string)
    requires forall i :: 0 <= i < |ws| ==> IsSpace(ws[i])
    requires sign == "" || sign == "+" || sign == "-"
    requires |ds| > 0 && forall i :: 0 <= i < |ds| ==> IsDigit(ds[i])
    ensures var n := ToInt32(ClampToLong(if sign == "-" then 0 - DigitsValue(ds) else DigitsValue(ds)));
            ParseNumber(ws + sign + ds) == if n >= 1 then Some(n % 256) else None
  {
    StrToLOfWritten(ws, sign, ds);
  }

  /** strtol reads all of a token made of white space, an optional sign and digits. */
  lemma {:induction false} StrToLOfWritten(ws: string, sign: string, ds: string)
    requires forall i :: 0 <= i < |ws| ==> IsSpace(ws[i])
    requires sign == "" || sign == "+" || sign == "-"
    requires |ds| > 0 && forall i :: 0 <= i < |ds| ==> IsDigit(ds[i])
    ensures StrToL(ws + sign + ds)
            == (ClampToLong(if sign == "-" then 0 - DigitsValue(ds) else DigitsValue(ds)), |ws + sign + ds|)
  {
    var token := ws + sign + ds;
    var rest := sign + ds;
    assert token == ws + rest;
    assert rest[0] == if sign == "" then ds[0] else sign[0];
    LeadingSpacesOfSpaces(ws, rest);
    assert token[|ws|..] == rest;
    StrToLAfterSpaces(token, |ws|, sign, ds);
  }

  lemma {:induction false} StrToLAfterSpaces(token: string, ws: nat, sign: string, ds: string)
    requires ws <= |token| && LeadingSpaces(token) == ws && token[ws..] == sign + ds
    requires sign == "" || sign == "+" || sign == "-"
    requires |ds| > 0 && forall i :: 0 <= i < |ds| ==> IsDigit(ds[i])
    ensures StrToL(token)
            == (ClampToLong(if sign == "-" then 0 - DigitsValue(ds) else DigitsValue(ds)), |token|)
  {
    SignedNumberOfWritten(sign, ds, ws);
  }

  lemma {:induction false} SignedNumberOfWritten(sign: string, ds: string, ws: nat)
    requires sign == "" || sign == "+" || sign == "-"
    requires |ds| > 0 && forall i :: 0 <= i < |ds| ==> IsDigit(ds[i])
    ensures SignedNumber(sign + ds, ws)
            == (ClampToLong(if sign == "-" then 0 - DigitsValue(ds) else DigitsValue(ds)), ws + |sign| + |ds|)
  {
    var rest := sign + ds;
    assert rest[0] == if sign == "" then ds[0] else sign[0];
    assert rest[|sign|..] == ds;
    LeadingDigitsOfDigits(ds);
    assert ds[..|ds|] == ds;
  }

  /** Zero and negative numbers are refused. */
  lemma NonPositiveNumbersRefused()
    ensures ParseNumber("-5") == None
    ensures ParseNumber("0") == None
  {
    assert "" + "-" + "5" == "-5";
    ParseNumberOfWritten("", "-", "5");
    assert "" + "" + "0" == "0";
    ParseNumberOfWritten("", "", "0");
  }

  /**
   * parseCommandRotate on the tokens after "rotate": the direction "left"
   * or "right" in any case (LEFT = 1, RIGHT = 3), a row and a column, and
   * nothing more.
   */
  function ParseRotate(args: seq<string>): (r: Option<Command>)
    ensures r.Some? ==> r.value.Rotate? && |args| == 3 && (r.value.dir == LEFT || r.value.dir == RIGHT)
  {
    if |args| == 0 then None
    else
      var word := Lower(args[0]);
      if word != "left" && word != "right" then None
      else
        var dir := if word == "left" then LEFT else RIGHT;
        if |args| < 2 then None
        else match ParseNumber(args[1])
          case None => None
          case Some(row) =>
            if |args| < 3 then None
            else match ParseNumber(args[2])
              case None => None
              case Some(col) => if |args| > 3 then None else Some(Rotate(dir, row, col))
  }

  /** parseCommand on the tokens of a line. */
  function ParseTokens(ts: seq<string>): (r: ParseResult)
    ensures r == Parsed(NoCommand) <==> ts == []
    ensures r.RotateUsage? ==> ts != [] && Lower(ts[0]) == "rotate"
  {
    if ts == [] then Parsed(NoCommand)
    else
      var word := Lower(ts[0]);
      if word == "rotate" then
        match ParseRotate(ts[1..])
        case Some(c) => Parsed(c)
        case None => RotateUsage
      else if word == "help" then Parsed(Help)
      else if word == "quit" then Parsed(Quit)
      else if word == "restart" then Parsed(Restart)
      else UnknownCommand(word)
  }

  /** parseCommand on a line read from the player. */
  function Parse(line: string): (r: ParseResult)
    ensures '\0' !in line ==> r == ParseTokens(Tokens(line))
  {
    ParseTokens(Tokens(CString(line)))
  }

  /** A blank line, and only a blank line, parses to NONE. */
  lemma {:induction false} BlankLineIsNoCommand(s: string)
    ensures ParseTokens(Tokens(s)) == Parsed(NoCommand) <==> forall i :: 0 <= i < |s| ==> IsSeparator(s[i])
  {
    NoTokensIffBlank(s);
  }

  /** The command word is matched without regard to case. */
  lemma {:induction false} CommandWordIgnoresCase(t: string, u: string, rest: seq<string>)
    requires Lower(t) == Lower(u)
    ensures ParseTokens([t] + rest) == ParseTokens([u] + rest)
  {
    assert ([t] + rest)[0] == t && ([u] + rest)[0] == u;
    assert ([t] + rest)[1..] == rest == ([u] + rest)[1..];
  }

  /** help, quit and restart are accepted whatever follows them. */
  lemma {:induction false} TrailingArgumentsIgnored(t: string, rest: seq<string>)
    requires Lower(t) in {"help", "quit", "restart"}
    ensures ParseTokens([t] + rest) == Parsed(if Lower(t) == "help" then Help else if Lower(t) == "quit" then Quit else Restart)
  {
    assert ([t] + rest)[0] == t;
    assert Lower(t) != "rotate";
  }

  /** An unknown command word is handed back lowered; the four known words are never unknown. */
  lemma {:induction false} UnknownWordIsReturnedLowered(ts: seq<string>, word: string)
    ensures ParseTokens(ts) == UnknownCommand(word) <==>
            ts != [] && word == Lower(ts[0]) && word !in {"rotate", "help", "quit", "restart"}
  {
    if ts != [] && Lower(ts[0]) == "rotate" {
      match ParseRotate(ts[1..])
      case Some(c) =>
      case None =>
    }
  }

  /**
   * A rotate command succeeds exactly with three arguments: "left" or
   * "right" in any case, then a row and a column that parse as numbers.
   * Every other argument list after "rotate" is the usage error.
   */
  lemma {:induction false} RotateArguments(ts: seq<string>, dir: Direction, row: u8, col: u8)
    requires ts != [] && Lower(ts[0]) == "rotate"
    ensures ParseTokens(ts) == Parsed(Rotate(dir, row, col)) <==>
              && |ts| == 4
              && ((Lower(ts[1]) == "left" && dir == LEFT) || (Lower(ts[1]) == "right" && dir == RIGHT))
              && ParseNumber(ts[2]) == Some(row)
              && ParseNumber(ts[3]) == Some(col)
    ensures ParseTokens(ts).RotateUsage? || ParseTokens(ts).Parsed?
  {
    var args := ts[1..];
    if |ts| == 4 {
      assert args[0] == ts[1] && args[1] == ts[2] && args[2] == ts[3];
    }
  }

  /** On a token, a row or column parses exactly when strtol reads a value of at least 1 from all of its characters. */
  lemma {:induction false} NumberNeedsAllCharacters(token: string)
    requires '\0' !in token && forall i :: 0 <= i < |token| ==> !IsSeparator(token[i])
    ensures ParseNumber(token).Some? <==> StrToL(token).1 == |token| && ToInt32(StrToL(token).0) >= 1
  {
    var (value, end) := StrToL(token);
    if end < |token| {
      assert token[end] in token;
    }
  }
}
