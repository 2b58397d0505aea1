/** Words of a lighting command that name their keys in another way: all of them, or one by its
    number. */
module LightingNames {
  import opened LightingText
  import opened Lighting

  /** Every LED of a key shows `c`, the others what they did. */
  ghost predicate AllSet(keys: seq<Key>, before: Light, after: Light, c: Colour) {
    && |after| == |before|
    && forall x :: 0 <= x < |after| ==> after[x] == if LitBy(keys, |keys|, x) then c else before[x]
  }

  /** Some key below `n` has this LED. */
  ghost predicate LitBy(keys: seq<Key>, n: nat, x: nat)
    requires n <= |keys|
  {
    exists i :: 0 <= i < n && keys[i].led == x
  }

  lemma {:induction false} SetAllExactly(keys: seq<Key>, light: Light, n: nat, code: string)
    requires ScanColour(code).0 && n <= |keys| && Mapped(keys, |light|)
    ensures forall x :: 0 <= x < |light| ==>
      SetAll(keys, light, n, code)[x] == if LitBy(keys, n, x) then ScanColour(code).1 else light[x]
  {
    if n > 0 {
      SetAllExactly(keys, light, n - 1, code);
      forall x | 0 <= x < |light| ensures LitBy(keys, n, x) <==> LitBy(keys, n - 1, x) || keys[n - 1].led == x {}
    }
  }

  /** A line with one name and a colour runs that name. */
  lemma OneName(keys: seq<Key>, light: Light, name: string, c: Colour)
    requires Mapped(keys, |light|) && name != "" && Free(name, Separators) && HexRun(name) < 5
    ensures RunWords(keys, light, Words(name + ":" + Hex6(c))) == RunName(keys, light, name, Hex6(c))
  {
    var word := name + ":" + Hex6(c);
    ScanPrinted(c);
    AtColon(name, Hex6(c));
    HexRunOfName(name, ":" + Hex6(c));
    assert Join([word], ' ') == word;
    WordsOfJoin([word]);
    OneWord(keys, light, word);
    assert Join([name], ',') == name;
    FieldsOfJoin([name]);
    OneField(keys, light, name, Hex6(c));
  }

  lemma OneField(keys: seq<Key>, light: Light, name: string, code: string)
    requires Mapped(keys, |light|)
    ensures RunNames(keys, light, [name], code) == RunName(keys, light, name, code)
  {
    assert [name][1..] == [];
  }

  /** The word for all keys, or a colour alone: every key that has an LED takes the colour, and
      nothing else changes. */
  lemma AllKeys(keys: seq<Key>, light: Light, c: Colour)
    requires Mapped(keys, |light|)
    ensures AllSet(keys, light, RunWords(keys, light, Words("all:" + Hex6(c))), c)
    ensures AllSet(keys, light, RunWords(keys, light, Words(Hex6(c))), c)
  {
    ScanPrinted(c);
    SetAllExactly(keys, light, |keys|, Hex6(c));
    AllIsName();
    assert "all" + ":" + Hex6(c) == "all:" + Hex6(c);
    OneName(keys, light, "all", c);
    SingleWord(Hex6(c));
    OneWord(keys, light, Hex6(c));
  }

  /** A word that starts with a colour sets all keys, whatever follows the colour. */
  lemma ColourWord(keys: seq<Key>, light: Light, word: string)
    requires Mapped(keys, |light|) && ScanColour(word).0
    ensures AllSet(keys, light, RunWord(keys, light, word), ScanColour(word).1)
  {
    SetAllExactly(keys, light, |keys|, word);
  }

  lemma {:induction false} SetNothing(keys: seq<Key>, light: Light, n: nat, code: string)
    requires Mapped(keys, |light|) && n <= |keys| && !ScanColour(code).0
    ensures SetAll(keys, light, n, code) == light
  {
    if n > 0 { SetNothing(keys, light, n - 1, code); }
  }

  lemma {:induction false} NamesNothing(keys: seq<Key>, light: Light, names: seq<string>, code: string)
    requires Mapped(keys, |light|) && !ScanColour(code).0
    ensures RunNames(keys, light, names, code) == light
    decreases |names|
  {
    if names != [] {
      SetNothing(keys, light, |keys|, code);
      assert RunName(keys, light, names[0], code) == light;
      NamesNothing(keys, light, names[1..], code);
    }
  }

  /** A word whose right side is no colour, or that has none, changes nothing. */
  lemma NoColour(keys: seq<Key>, light: Light, left: string, right: string)
    requires Mapped(keys, |light|) && Free(left, {':'}) && left != ""
    ensures !ScanColour(left + ":" + right).0 && !ScanColour(right).0 ==> RunWord(keys, light, left + ":" + right) == light
    ensures !ScanColour(left).0 ==> RunWord(keys, light, left) == light
  {
    var word := left + ":" + right;
    assert word[..|left|] == left && word[|left| + 1..] == right;
    UntilIs(word, {':'}, |left|);
    assert left[..|left|] == left;
    UntilIs(left, {':'}, |left|);
    assert !ScanColour("").0;
    if !ScanColour(right).0 { NamesNothing(keys, light, Fields(left), right); }
    NamesNothing(keys, light, Fields(left), "");
  }

  lemma AllIsName()
    ensures Free("all", Separators) && HexRun("all") < 5
  {
    HexRunIs("all", 1);
  }

  // ----- numbers

  /** The digits of a number, as a person writes it. */
  function Digits(k: nat, base: nat): (s: string)
    requires 2 <= base <= 16
    ensures s != ""
  {
    if k < base then [Digit(k)] else Digits(k / base, base) + [Digit(k % base)]
  }

  ghost predicate AllDigits(s: string, base: nat) {
    forall i :: 0 <= i < |s| ==> 0 <= Value(s[i]) < base && s[i] !in Separators
  }

  lemma {:induction false} NumeralSnoc(s: string, d: nat, base: nat, sofar: nat)
    requires 2 <= base <= 16 && d < base && AllDigits(s, base)
    ensures Numeral(s + [Digit(d)], base, sofar) == base * Numeral(s, base, sofar) + d
  {
    DigitValue(d);
    if s == "" {
      assert s + [Digit(d)] == [Digit(d)];
    } else {
      assert (s + [Digit(d)])[1..] == s[1..] + [Digit(d)];
      NumeralSnoc(s[1..], d, base, base * sofar + Value(s[0]));
    }
  }

  /** Reading a number back. */
  lemma {:induction false} NumeralOfDigits(k: nat, base: nat)
    requires 2 <= base <= 16
    ensures Numeral(Digits(k, base), base, 0) == k && AllDigits(Digits(k, base), base)
  {
    if k < base {
      DigitValue(k);
    } else {
      var q, d := k / base, k % base;
      NumeralOfDigits(q, base);
      OneMoreDigit(Digits(q, base), q, d, base);
      Recombine(k, base);
    }
  }

  lemma OneMoreDigit(s: string, q: nat, d: nat, base: nat)
    requires 2 <= base <= 16 && d < base && AllDigits(s, base) && Numeral(s, base, 0) == q
    ensures Numeral(s + [Digit(d)], base, 0) == base * q + d && AllDigits(s + [Digit(d)], base)
  {
    DigitValue(d);
    NumeralSnoc(s, d, base, 0);
  }

  lemma Recombine(k: nat, base: nat)
    requires base > 0
    ensures base * (k / base) + k % base == k
  {}

  lemma Numbered(k: nat)
    ensures var ten := "#" + Digits(k, 10);
      Number(ten) == k && Free(ten, Separators) && HexRun(ten) == 0 && ten != "all"
    ensures var sixteen := "#x" + Digits(k, 16);
      Number(sixteen) == k && Free(sixteen, Separators) && HexRun(sixteen) == 0 && sixteen != "all"
  {
    NumeralOfDigits(k, 10);
    NumeralOfDigits(k, 16);
    var ten, sixteen := "#" + Digits(k, 10), "#x" + Digits(k, 16);
    assert ten[1..] == Digits(k, 10) && sixteen[2..] == Digits(k, 16);
    assert ten[1] == Digits(k, 10)[0] && sixteen[2] == Digits(k, 16)[0];
  }

  /** A key by its number, decimal or hexadecimal: its LED alone takes the colour. */
  lemma KeyByNumber(keys: seq<Key>, light: Light, k: nat, c: Colour)
    requires Mapped(keys, |light|) && k < |keys|
    ensures var wanted := if keys[k].led < 0 then light else light[keys[k].led := c];
      && RunWords(keys, light, Words("#" + Digits(k, 10) + ":" + Hex6(c))) == wanted
      && RunWords(keys, light, Words("#x" + Digits(k, 16) + ":" + Hex6(c))) == wanted
  {
    Numbered(k);
    ScanPrinted(c);
    OneName(keys, light, "#" + Digits(k, 10), c);
    OneName(keys, light, "#x" + Digits(k, 16), c);
  }

  /** A key by its name: the LED of the first key of that name alone; nothing if there is none. */
  lemma KeyByName(keys: seq<Key>, light: Light, name: string, c: Colour, k: nat)
    requires Mapped(keys, |light|) && GoodName(name) && k <= |keys|
    requires (forall j :: 0 <= j < k ==> keys[j].name != name) && (k < |keys| ==> keys[k].name == name)
    ensures RunWords(keys, light, Words(name + ":" + Hex6(c)))
            == if k == |keys| || keys[k].led < 0 then light else light[keys[k].led := c]
  {
    FirstOfName(keys, name, k);
    RunGoodName(keys, light, name, c);
    OneName(keys, light, name, c);
  }

  lemma RunGoodName(keys: seq<Key>, light: Light, name: string, c: Colour)
    requires Mapped(keys, |light|) && GoodName(name)
    ensures var k := Find(keys, name);
      RunName(keys, light, name, Hex6(c)) == if k == |keys| || keys[k].led < 0 then light else light[keys[k].led := c]
  {
    ScanPrinted(c);
  }

  lemma {:induction false} FirstOfName(keys: seq<Key>, name: string, k: nat)
    requires k <= |keys| && (forall j :: 0 <= j < k ==> keys[j].name != name) && (k < |keys| ==> keys[k].name == name)
    ensures Find(keys, name) == k
  {
    if k > 0 {
      assert keys[0].name != name;
      FirstOfName(keys[1..], name, k - 1);
    }
  }

  lemma ColourText()
    ensures Hex6(Colour(0x12, 0xab, 0xf0)) == "12abf0"
  {}

  // ----- other ways to write a colour

  /** A digit as a capital letter. */
  function Capital(c: char): char {
    if 'a' <= c <= 'f' then c - 'a' + 'A' else c
  }

  function Capitals(s: string): (r: string)
    ensures |r| == |s| && forall i :: 0 <= i < |s| ==> r[i] == Capital(s[i])
  {
    seq(|s|, i requires 0 <= i < |s| => Capital(s[i]))
  }

  lemma CapitalValue(c: char)
    ensures Value(Capital(c)) == Value(c)
  {}

  lemma {:induction false} CapitalRun(s: string)
    ensures HexRun(Capitals(s)) == HexRun(s)
  {
    if s != "" {
      CapitalValue(s[0]);
      assert Capitals(s)[1..] == Capitals(s[1..]);
      CapitalRun(s[1..]);
    }
  }

  /** Capital letters read the same. */
  lemma ScanCapitals(s: string)
    ensures ScanColour(Capitals(s)) == ScanColour(s)
  {
    CapitalRun(s);
    var r := Capitals(s);
    forall i | 0 <= i < |s| ensures Value(r[i]) == Value(s[i]) { CapitalValue(s[i]); }
    ScanByValue(s, r);
  }

  lemma ScanByValue(s: string, r: string)
    requires |s| == |r| && HexRun(s) == HexRun(r) && forall i :: 0 <= i < |s| ==> Value(r[i]) == Value(s[i])
    ensures ScanColour(r) == ScanColour(s)
  {
    if HexRun(s) >= 5 {
      ScanShape(s);
      ScanShape(r);
      SameColour(ScanColour(s).1, ScanColour(r).1, s, r);
    } else {
      ScanNothing(s);
      ScanNothing(r);
    }
  }

  lemma SameColour(c: Colour, d: Colour, s: string, r: string)
    requires |s| == |r| >= 5 && HexRun(s) == HexRun(r) && forall i :: 0 <= i < |s| ==> Value(r[i]) == Value(s[i])
    requires HexRun(s) > 5 ==> |s| > 5
    requires c.r as int == 16 * Value(s[0]) + Value(s[1]) && c.g as int == 16 * Value(s[2]) + Value(s[3])
    requires d.r as int == 16 * Value(r[0]) + Value(r[1]) && d.g as int == 16 * Value(r[2]) + Value(r[3])
    requires c.b as int == if HexRun(s) == 5 then Value(s[4]) else if HexRun(s) > 5 then 16 * Value(s[4]) + Value(s[5]) else 0
    requires d.b as int == if HexRun(r) == 5 then Value(r[4]) else if HexRun(r) > 5 then 16 * Value(r[4]) + Value(r[5]) else 0
    ensures c == d
  {}

  lemma ScanNothing(s: string)
    requires HexRun(s) < 5
    ensures ScanColour(s) == (false, Colour(0, 0, 0))
  {}

  lemma ScanShape(s: string)
    requires HexRun(s) >= 5
    ensures |s| >= 5 && forall i :: 0 <= i < 5 ==> Value(s[i]) >= 0
    ensures HexRun(s) > 5 ==> |s| >= 6 && Value(s[5]) >= 0
    ensures var b := if HexRun(s) == 5 then Value(s[4]) else 16 * Value(s[4]) + Value(s[5]);
      ScanColour(s) == (true, Colour(16 * Value(s[0]) + Value(s[1]), 16 * Value(s[2]) + Value(s[3]), b))
  {
    forall i | 0 <= i < 5 ensures |s| >= 5 && Value(s[i]) >= 0 { HexDigits(s, 4); HexDigits(s, i); }
    if HexRun(s) > 5 { HexDigits(s, 5); }
  }

  /** With five digits the last channel has only one. */
  lemma ScanFive(r: Byte, g: Byte, b: nat)
    requires b < 16
    ensures ScanColour(Hex2(r) + Hex2(g) + [Digit(b)]) == (true, Colour(r, g, b))
  {
    var s := Hex2(r) + Hex2(g) + [Digit(b)];
    DigitValue(r / 16);
    DigitValue(r % 16);
    DigitValue(g / 16);
    DigitValue(g % 16);
    DigitValue(b);
    assert s == [Digit(r / 16), Digit(r % 16), Digit(g / 16), Digit(g % 16), Digit(b)];
    HexRunIs(s, 5);
  }
}
