/** The text side of lighting commands: what printrgb writes and how readcmd takes a line
    apart with strtok and scanf. */
module LightingText {

  /** Length of the part of `s` before the first of the stop characters. */
  function Until(s: string, stops: set<char>): (n: nat)
    ensures n <= |s| && (n < |s| ==> s[n] in stops)
    ensures forall i :: 0 <= i < n ==> s[i] !in stops
  {
    if s == "" || s[0] in stops then 0 else 1 + Until(s[1..], stops)
  }

  predicate Free(s: string, stops: set<char>) {
    forall i :: 0 <= i < |s| ==> s[i] !in stops
  }

  lemma UntilIs(s: string, stops: set<char>, n: nat)
    requires n <= |s| && Free(s[..n], stops) && (n < |s| ==> s[n] in stops)
    ensures Until(s, stops) == n
  {
    forall i | 0 <= i < n ensures s[i] !in stops {
      assert s[..n][i] == s[i];
    }
  }

  // ----- words of a line: strtok

  const Blanks := {' ', '\n'}

  function Words(s: string): seq<string>
    decreases |s|
  {
    if s == "" then []
    else if s[0] in Blanks then Words(s[1..])
    else var n := Until(s, Blanks); [s[..n]] + Words(s[n..])
  }

  function Join(parts: seq<string>, sep: char): string {
    if parts == [] then "" else if |parts| == 1 then parts[0] else parts[0] + [sep] + Join(parts[1..], sep)
  }

  lemma {:induction false} WordsOfJoin(parts: seq<string>)
    requires forall k :: 0 <= k < |parts| ==> parts[k] != "" && Free(parts[k], Blanks)
    ensures Words(Join(parts, ' ')) == parts
    decreases |parts|
  {
    if |parts| > 0 {
      var s, n := Join(parts, ' '), |parts[0]|;
      var rest := Join(parts[1..], ' ');
      assert s[..n] == parts[0];
      assert s[0] == parts[0][0];
      UntilIs(s, Blanks, n);
      WordsOfJoin(parts[1..]);
      if |parts| == 1 {
        assert s[n..] == "";
      } else {
        assert s[n..] == " " + rest;
        assert s[n..][1..] == rest;
      }
    }
  }

  // ----- fields of the left side: sscanf with %[^:,]

  function Fields(s: string): seq<string>
    decreases |s|
  {
    var n := Until(s, {':', ','});
    if n == 0 then []
    else [s[..n]] + if n < |s| then (if s[n] == ',' then Fields(s[n + 1..]) else Fields(s[n..])) else []
  }

  const Separators := {':', ',', ' ', '\n'}

  lemma {:induction false} FieldsOfJoin(parts: seq<string>)
    requires forall k :: 0 <= k < |parts| ==> parts[k] != "" && Free(parts[k], {':', ','})
    ensures Fields(Join(parts, ',')) == parts
    decreases |parts|
  {
    if |parts| > 0 {
      var s, n := Join(parts, ','), |parts[0]|;
      var rest := Join(parts[1..], ',');
      assert s[..n] == parts[0];
      FieldsOfJoin(parts[1..]);
      if |parts| > 1 {
        assert s[n] == ',' && s[n + 1..] == rest;
      }
      UntilIs(s, {':', ','}, n);
    }
  }

  lemma {:induction false} JoinFree(parts: seq<string>, sep: char, stops: set<char>)
    requires sep !in stops && forall k :: 0 <= k < |parts| ==> Free(parts[k], stops)
    ensures Free(Join(parts, sep), stops)
    decreases |parts|
  {
    if |parts| > 1 { JoinFree(parts[1..], sep, stops); }
  }

  // ----- colours

  type Byte = b: int | 0 <= b < 256

  datatype Colour = Colour(r: Byte, g: Byte, b: Byte)

  function Digit(v: nat): char
    requires v < 16
  {
    "0123456789abcdef"[v]
  }

  /** A hexadecimal digit as scanf takes it, either case. */
  function Value(c: char): (v: int)
    ensures -1 <= v < 16
  {
    if '0' <= c <= '9' then c as int - '0' as int
    else if 'a' <= c <= 'f' then c as int - 'a' as int + 10
    else if 'A' <= c <= 'F' then c as int - 'A' as int + 10
    else -1
  }

  lemma DigitValue(v: nat)
    requires v < 16
    ensures Value(Digit(v)) == v && Digit(v) !in Separators
  {
    assert Digit(v) == if v < 10 then '0' + v as char else 'a' + (v - 10) as char;
  }

  /** %02x */
  function Hex2(b: Byte): (s: string)
    ensures |s| == 2
  {
    [Digit(b / 16), Digit(b % 16)]
  }

  /** %02x%02x%02x */
  function Hex6(c: Colour): (s: string)
    ensures |s| == 6
  {
    Hex2(c.r) + Hex2(c.g) + Hex2(c.b)
  }

  /** The number a string starts with. */
  function Numeral(s: string, base: nat, sofar: nat): nat {
    if s == "" || !(0 <= Value(s[0]) < base) then sofar else Numeral(s[1..], base, base * sofar + Value(s[0]))
  }

  /** A key given by its number, #12 or #x0c, or -1. */
  function Number(name: string): int {
    if |name| >= 2 && name[0] == '#' && 0 <= Value(name[1]) < 10 then Numeral(name[1..], 10, 0)
    else if |name| >= 3 && name[0] == '#' && name[1] == 'x' && 0 <= Value(name[2]) then Numeral(name[2..], 16, 0)
    else -1
  }

  /** How many hexadecimal digits a string starts with. */
  function HexRun(s: string): (n: nat)
    ensures n <= |s|
  {
    if s == "" || Value(s[0]) < 0 then 0 else 1 + HexRun(s[1..])
  }

  /** sscanf with %2x%2x%2x: each takes one or two digits, as many as there are.  Signs and a
      0x prefix are not part of this model. */
  function ScanColour(s: string): (c: (bool, Colour))
    ensures c.0 <==> HexRun(s) >= 5
  {
    if HexRun(s) < 5 then (false, Colour(0, 0, 0))
    else
      HexDigits(s, 0);
      HexDigits(s, 1);
      HexDigits(s, 2);
      HexDigits(s, 3);
      HexDigits(s, 4);
      var b := if HexRun(s) == 5 then Value(s[4]) else (HexDigits(s, 5); 16 * Value(s[4]) + Value(s[5]));
      (true, Colour(16 * Value(s[0]) + Value(s[1]), 16 * Value(s[2]) + Value(s[3]), b))
  }

  lemma {:induction false} HexDigits(s: string, i: nat)
    requires i < HexRun(s)
    ensures i < |s| && 0 <= Value(s[i])
  {
    if i > 0 { HexDigits(s[1..], i - 1); }
  }

  lemma {:induction false} HexRunIs(s: string, n: nat)
    requires n <= |s| && (forall i :: 0 <= i < n ==> Value(s[i]) >= 0) && (n < |s| ==> Value(s[n]) < 0)
    ensures HexRun(s) == n
  {
    if n > 0 {
      assert forall i :: 0 <= i < n - 1 ==> s[1..][i] == s[i + 1];
      HexRunIs(s[1..], n - 1);
    }
  }

  /** What is printed is what is scanned. */
  lemma ScanPrinted(c: Colour)
    ensures ScanColour(Hex6(c)) == (true, c) && Free(Hex6(c), Separators)
  {
    var s := Hex6(c);
    DigitValue(c.r / 16);
    DigitValue(c.r % 16);
    DigitValue(c.g / 16);
    DigitValue(c.g % 16);
    DigitValue(c.b / 16);
    DigitValue(c.b % 16);
    assert s == [Digit(c.r / 16), Digit(c.r % 16), Digit(c.g / 16), Digit(c.g % 16), Digit(c.b / 16), Digit(c.b % 16)];
    HexRunIs(s, 6);
  }

  /** A name followed by a separator starts with as many digits as the name itself. */
  lemma {:induction false} HexRunOfName(name: string, rest: string)
    requires rest != "" && (rest[0] == ',' || rest[0] == ':')
    ensures HexRun(name + rest) == HexRun(name)
  {
    if name == "" {
      assert name + rest == rest;
    } else {
      assert (name + rest)[1..] == name[1..] + rest;
      HexRunOfName(name[1..], rest);
    }
  }
}
