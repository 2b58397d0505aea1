/** Lighting commands: printrgb of led.c groups the keys of a lighting state by colour, and
    the RGB command of readcmd in command.c puts such a line into effect. */
module Lighting {
  import opened LightingText

  /** A key map entry.  `has` is has_key: does the key exist in the current LED layout? */
  datatype Key = Key(name: string, led: int, has: bool)

  type Light = seq<Colour>

  predicate Shown(key: Key) { key.led >= 0 && key.has && key.name != "" }

  /** A name that survives the command syntax: no separator in it, not the word for all keys,
      not numeric, and no five hexadecimal digits in front, which would read as a colour. */
  predicate GoodName(name: string) {
    name != "" && Free(name, Separators) && name != "all" && name[0] != '#' && name[0] != '@' && HexRun(name) < 5
  }

  /** Every LED exists, and the first key has one: printrgb reads its colour. */
  ghost predicate Printable(keys: seq<Key>, leds: nat) {
    keys != [] && keys[0].led >= 0 && Mapped(keys, leds)
  }

  /** The key maps whose lines can be read back: also, no shown key shares its name with an
      earlier key. */
  ghost predicate Sound(keys: seq<Key>, leds: nat) {
    && Printable(keys, leds)
    && (forall i :: 0 <= i < |keys| && Shown(keys[i]) ==> GoodName(keys[i].name))
    && (forall i, j :: 0 <= j < i < |keys| && Shown(keys[i]) ==> keys[j].name != keys[i].name)
  }

  /** Every LED exists. */
  ghost predicate Mapped(keys: seq<Key>, leds: nat) {
    forall i :: 0 <= i < |keys| ==> keys[i].led < leds
  }

  // ----- reading

  function SetKey(keys: seq<Key>, light: Light, i: nat, code: string): (r: Light)
    requires i < |keys| && keys[i].led < |light|
    ensures |r| == |light|
  {
    if keys[i].led < 0 || !ScanColour(code).0 then light else light[keys[i].led := ScanColour(code).1]
  }

  /** cmd_rgb on the first `n` keys. */
  function SetAll(keys: seq<Key>, light: Light, n: nat, code: string): (r: Light)
    requires n <= |keys| && forall i :: 0 <= i < |keys| ==> keys[i].led < |light|
    ensures |r| == |light|
  {
    if n == 0 then light else SetKey(keys, SetAll(keys, light, n - 1, code), n - 1, code)
  }

  /** The first key with a name, or the number of keys. */
  function Find(keys: seq<Key>, name: string): (i: nat)
    ensures i <= |keys| && (i < |keys| ==> keys[i].name == name)
  {
    if keys == [] || keys[0].name == name then 0 else 1 + Find(keys[1..], name)
  }

  /** One field of the left side. */
  function RunName(keys: seq<Key>, light: Light, name: string, code: string): (r: Light)
    requires forall i :: 0 <= i < |keys| ==> keys[i].led < |light|
    ensures |r| == |light|
  {
    if name == "all" then SetAll(keys, light, |keys|, code)
    else if 0 <= Number(name) < |keys| then SetKey(keys, light, Number(name), code)
    else if Find(keys, name) < |keys| then SetKey(keys, light, Find(keys, name), code)
    else light
  }

  function RunNames(keys: seq<Key>, light: Light, names: seq<string>, code: string): (r: Light)
    requires forall i :: 0 <= i < |keys| ==> keys[i].led < |light|
    ensures |r| == |light|
    decreases |names|
  {
    if names == [] then light else RunNames(keys, RunName(keys, light, names[0], code), names[1..], code)
  }

  /** One word of an RGB command: a colour for all keys, or names, a colon and a colour. */
  function RunWord(keys: seq<Key>, light: Light, word: string): (r: Light)
    requires forall i :: 0 <= i < |keys| ==> keys[i].led < |light|
    ensures |r| == |light|
  {
    if ScanColour(word).0 then SetAll(keys, light, |keys|, word)
    else
      var left := Until(word, {':'});
      if left == 0 then light
      else RunNames(keys, light, Fields(word[..left]), if left < |word| then word[left + 1..] else "")
  }

  function RunWords(keys: seq<Key>, light: Light, words: seq<string>): (r: Light)
    requires forall i :: 0 <= i < |keys| ==> keys[i].led < |light|
    ensures |r| == |light|
    decreases |words|
  {
    if words == [] then light else RunWords(keys, RunWord(keys, light, words[0]), words[1..])
  }

  // ----- printing

  function ColourOf(keys: seq<Key>, light: Light, i: nat): Colour
    requires i < |keys| && 0 <= keys[i].led < |light|
  {
    light[keys[i].led]
  }

  /** Keys whose name has not been erased have an LED. */
  ghost predicate Alive(keys: seq<Key>, light: Light, live: seq<bool>) {
    |live| == |keys| && forall i :: 0 <= i < |keys| && live[i] ==> 0 <= keys[i].led < |light|
  }

  /** The look-ahead: later keys with the colour of `i`, from `j` on. */
  function Alike(keys: seq<Key>, light: Light, live: seq<bool>, i: nat, j: nat): seq<nat>
    requires Alive(keys, light, live) && i < |keys| && live[i] && j <= |keys|
    decreases |keys| - j
  {
    if j == |keys| then []
    else (if live[j] && ColourOf(keys, light, j) == ColourOf(keys, light, i) then [j] else [])
         + Alike(keys, light, live, i, j + 1)
  }

  function Erase(keys: seq<Key>, light: Light, live: seq<bool>, i: nat): (r: seq<bool>)
    requires Alive(keys, light, live) && i < |keys| && live[i]
    ensures Alive(keys, light, r)
  {
    seq(|live|, j requires 0 <= j < |live| =>
      live[j] && !(j > i && ColourOf(keys, light, j) == ColourOf(keys, light, i)))
  }

  /** The groups from key `i` on, each a list of keys. */
  function Groups(keys: seq<Key>, light: Light, live: seq<bool>, i: nat): seq<seq<nat>>
    requires Alive(keys, light, live) && i <= |keys|
    decreases |keys| - i
  {
    if i == |keys| then []
    else if !live[i] then Groups(keys, light, live, i + 1)
    else [[i] + Alike(keys, light, live, i, i + 1)] + Groups(keys, light, Erase(keys, light, live, i), i + 1)
  }

  function Names(keys: seq<Key>, group: seq<nat>): (r: seq<string>)
    requires forall k :: 0 <= k < |group| ==> group[k] < |keys|
    ensures |r| == |group| && forall k :: 0 <= k < |r| ==> r[k] == keys[group[k]].name
  {
    seq(|group|, k requires 0 <= k < |group| => keys[group[k]].name)
  }

  /** Keys of one group: all shown, all with this colour. */
  ghost predicate Uniform(keys: seq<Key>, light: Light, group: seq<nat>) {
    && group != []
    && (forall k :: 0 <= k < |group| ==> group[k] < |keys| && Shown(keys[group[k]]) && keys[group[k]].led < |light|)
    && (forall k :: 0 <= k < |group| ==> ColourOf(keys, light, group[k]) == ColourOf(keys, light, group[0]))
  }

  ghost function WordOf(keys: seq<Key>, light: Light, group: seq<nat>): string
    requires Uniform(keys, light, group)
  {
    Join(Names(keys, group), ',') + ":" + Hex6(ColourOf(keys, light, group[0]))
  }

  // ----- one word round trip

  lemma {:induction false} FindIs(keys: seq<Key>, i: nat)
    requires i < |keys| && forall j :: 0 <= j < i ==> keys[j].name != keys[i].name
    ensures Find(keys, keys[i].name) == i
  {
    if i > 0 {
      assert keys[0].name != keys[i].name;
      FindIs(keys[1..], i - 1);
    }
  }

  /** `light` shows the colour of `target` on the LED of key `i`. */
  ghost predicate AgreesOn(keys: seq<Key>, target: Light, light: Light, i: nat) {
    i < |keys| && 0 <= keys[i].led < |target| == |light| && light[keys[i].led] == target[keys[i].led]
  }

  ghost predicate Agrees(keys: seq<Key>, target: Light, light: Light, group: seq<nat>) {
    forall k :: 0 <= k < |group| ==> AgreesOn(keys, target, light, group[k])
  }

  /** Nothing was changed except to what `target` has. */
  ghost predicate Towards(target: Light, before: Light, after: Light) {
    |target| == |before| == |after| && forall x :: 0 <= x < |after| ==> after[x] == before[x] || after[x] == target[x]
  }

  lemma RunOne(keys: seq<Key>, target: Light, light: Light, i: nat)
    requires Sound(keys, |target|) && |light| == |target| && i < |keys| && Shown(keys[i])
    ensures var r := RunName(keys, light, keys[i].name, Hex6(ColourOf(keys, target, i)));
      Towards(target, light, r) && AgreesOn(keys, target, r, i)
  {
    ScanPrinted(ColourOf(keys, target, i));
    FindIs(keys, i);
    assert GoodName(keys[i].name);
  }

  lemma TowardsTrans(keys: seq<Key>, target: Light, a: Light, b: Light, c: Light, i: nat)
    requires Towards(target, a, b) && Towards(target, b, c) && AgreesOn(keys, target, b, i)
    ensures Towards(target, a, c) && AgreesOn(keys, target, c, i)
  {}

  lemma {:induction false} RunGroup(keys: seq<Key>, target: Light, light: Light, group: seq<nat>, code: string)
    requires Sound(keys, |target|) && |light| == |target|
    requires forall k :: 0 <= k < |group| ==> group[k] < |keys| && Shown(keys[group[k]])
    requires forall k :: 0 <= k < |group| ==> Hex6(ColourOf(keys, target, group[k])) == code
    ensures var r := RunNames(keys, light, Names(keys, group), code);
      Towards(target, light, r) && Agrees(keys, target, r, group)
    decreases |group|
  {
    if group != [] {
      var i, rest := group[0], group[1..];
      RunOne(keys, target, light, i);
      var light' := RunName(keys, light, keys[i].name, code);
      assert Names(keys, group)[1..] == Names(keys, rest);
      RunGroup(keys, target, light', rest, code);
      var r := RunNames(keys, light', Names(keys, rest), code);
      TowardsTrans(keys, target, light, light', r, i);
      forall k | 0 <= k < |group| ensures AgreesOn(keys, target, r, group[k]) {
        if k > 0 { assert group[k] == rest[k - 1]; }
      }
    }
  }

  lemma GoodNames(keys: seq<Key>, leds: nat, group: seq<nat>)
    requires Sound(keys, leds)
    requires forall k :: 0 <= k < |group| ==> group[k] < |keys| && Shown(keys[group[k]])
    ensures forall k :: 0 <= k < |group| ==> GoodName(Names(keys, group)[k])
  {}

  /** The names, the colon and the colour come apart again where they were put together. */
  lemma WordComesApart(names: seq<string>, c: Colour)
    requires names != [] && forall k :: 0 <= k < |names| ==> GoodName(names[k])
    ensures var word := Join(names, ',') + ":" + Hex6(c);
      var left := Until(word, {':'});
      && !ScanColour(word).0 && left > 0 && left < |word|
      && Fields(word[..left]) == names && word[left + 1..] == Hex6(c)
      && word != "" && Free(word, Blanks)
  {
    var left, code := Join(names, ','), Hex6(c);
    NamesJoined(names);
    ScanPrinted(c);
    AtColon(left, code);
    FirstNameDigits(names, ":" + code);
  }

  lemma NamesJoined(names: seq<string>)
    requires names != [] && forall k :: 0 <= k < |names| ==> GoodName(names[k])
    ensures var left := Join(names, ',');
      left != "" && Free(left, {':'}) && Free(left, Blanks) && Fields(left) == names
  {
    forall k | 0 <= k < |names| ensures Free(names[k], {':'}) && Free(names[k], Blanks) && Free(names[k], {':', ','}) {
      assert GoodName(names[k]);
    }
    JoinFree(names, ',', {':'});
    JoinFree(names, ',', Blanks);
    FieldsOfJoin(names);
    JoinNonEmpty(names);
  }

  lemma AtColon(left: string, code: string)
    requires Free(left, {':'}) && Free(left, Blanks) && Free(code, Separators)
    ensures var word := left + ":" + code;
      && Until(word, {':'}) == |left| < |word|
      && word[..|left|] == left && word[|left| + 1..] == code && word == left + (":" + code)
      && Free(word, Blanks)
  {
    var word := left + ":" + code;
    assert word[..|left|] == left;
    UntilIs(word, {':'}, |left|);
  }

  lemma JoinNonEmpty(names: seq<string>)
    requires names != [] && names[0] != ""
    ensures Join(names, ',') != ""
  {}

  lemma FirstNameDigits(names: seq<string>, rest: string)
    requires names != [] && rest != "" && rest[0] == ':' && GoodName(names[0])
    ensures HexRun(Join(names, ',') + rest) < 5
  {
    if |names| == 1 {
      HexRunOfName(names[0], rest);
    } else {
      var tail := [','] + Join(names[1..], ',') + rest;
      assert Join(names, ',') + rest == names[0] + tail;
      HexRunOfName(names[0], tail);
    }
  }

  /** One printed word, read on any lighting state, sets its keys to the colours printed and
      changes nothing else. */
  lemma RunPrintedWord(keys: seq<Key>, target: Light, light: Light, group: seq<nat>)
    requires Sound(keys, |target|) && |light| == |target| && Uniform(keys, target, group)
    ensures var r := RunWord(keys, light, WordOf(keys, target, group));
      Towards(target, light, r) && Agrees(keys, target, r, group)
  {
    var c := ColourOf(keys, target, group[0]);
    GoodNames(keys, |target|, group);
    WordComesApart(Names(keys, group), c);
    RunGroup(keys, target, light, group, Hex6(c));
  }

  // ----- the whole line

  ghost predicate AllShown(keys: seq<Key>, live: seq<bool>) {
    |live| == |keys| && forall i :: 0 <= i < |keys| && live[i] ==> Shown(keys[i])
  }

  lemma {:induction false} AlikeMember(keys: seq<Key>, light: Light, live: seq<bool>, i: nat, j: nat, k: nat)
    requires Alive(keys, light, live) && i < |keys| && live[i] && j <= |keys| && k in Alike(keys, light, live, i, j)
    ensures k < |keys| && live[k] && ColourOf(keys, light, k) == ColourOf(keys, light, i)
    decreases |keys| - j
  {
    if k in Alike(keys, light, live, i, j + 1) { AlikeMember(keys, light, live, i, j + 1, k); }
  }

  lemma AlikeUniform(keys: seq<Key>, light: Light, live: seq<bool>, i: nat, j: nat)
    requires Alive(keys, light, live) && AllShown(keys, live) && i < |keys| && live[i] && j <= |keys|
    ensures forall k :: k in Alike(keys, light, live, i, j) ==>
      k < |keys| && live[k] && ColourOf(keys, light, k) == ColourOf(keys, light, i)
  {
    forall k | k in Alike(keys, light, live, i, j)
      ensures k < |keys| && live[k] && ColourOf(keys, light, k) == ColourOf(keys, light, i)
    {
      AlikeMember(keys, light, live, i, j, k);
    }
  }

  lemma {:induction false} GroupsUniform(keys: seq<Key>, light: Light, live: seq<bool>, i: nat)
    requires Alive(keys, light, live) && AllShown(keys, live) && i <= |keys|
    ensures forall n :: 0 <= n < |Groups(keys, light, live, i)| ==> Uniform(keys, light, Groups(keys, light, live, i)[n])
    decreases |keys| - i
  {
    if i < |keys| {
      if !live[i] {
        GroupsUniform(keys, light, live, i + 1);
      } else {
        AlikeUniform(keys, light, live, i, i + 1);
        var a := Alike(keys, light, live, i, i + 1);
        FirstUniform(keys, light, i, a);
        GroupsUniform(keys, light, Erase(keys, light, live, i), i + 1);
      }
    }
  }

  lemma FirstUniform(keys: seq<Key>, light: Light, i: nat, a: seq<nat>)
    requires i < |keys| && Shown(keys[i]) && keys[i].led < |light|
    requires forall k :: k in a ==> k < |keys| && Shown(keys[k]) && keys[k].led < |light| && ColourOf(keys, light, k) == ColourOf(keys, light, i)
    ensures Uniform(keys, light, [i] + a)
  {
    var g := [i] + a;
    forall k | 0 <= k < |g| ensures g[k] == i || g[k] in a {}
  }

  function Times(group: seq<nat>, k: nat): nat {
    if group == [] then 0 else (if group[0] == k then 1 else 0) + Times(group[1..], k)
  }

  lemma {:induction false} TimesMember(group: seq<nat>, k: nat)
    ensures Times(group, k) > 0 ==> k in group
  {
    if group != [] { TimesMember(group[1..], k); }
  }

  /** How often a key is printed. */
  function Occurs(groups: seq<seq<nat>>, k: nat): nat {
    if groups == [] then 0 else Times(groups[0], k) + Occurs(groups[1..], k)
  }

  lemma {:induction false} AlikeCount(keys: seq<Key>, light: Light, live: seq<bool>, i: nat, j: nat, k: nat)
    requires Alive(keys, light, live) && i < |keys| && live[i] && j <= |keys|
    ensures Times(Alike(keys, light, live, i, j), k)
            == if j <= k < |keys| && live[k] && ColourOf(keys, light, k) == ColourOf(keys, light, i) then 1 else 0
    decreases |keys| - j
  {
    if j < |keys| {
      AlikeCount(keys, light, live, i, j + 1, k);
      var rest := Alike(keys, light, live, i, j + 1);
      assert ([j] + rest)[1..] == rest && [] + rest == rest;
    }
  }

  /** Every live key from `i` on is in exactly one group, exactly once. */
  lemma {:induction false} PrintedOnce(keys: seq<Key>, light: Light, live: seq<bool>, i: nat, k: nat)
    requires Alive(keys, light, live) && i <= |keys|
    ensures Occurs(Groups(keys, light, live, i), k) == if i <= k < |keys| && live[k] then 1 else 0
    decreases |keys| - i
  {
    if i < |keys| {
      if !live[i] {
        PrintedOnce(keys, light, live, i + 1, k);
      } else {
        var a := Alike(keys, light, live, i, i + 1);
        var rest := Groups(keys, light, Erase(keys, light, live, i), i + 1);
        AlikeCount(keys, light, live, i, i + 1, k);
        PrintedOnce(keys, light, Erase(keys, light, live, i), i + 1, k);
        assert Groups(keys, light, live, i)[1..] == rest;
        assert ([i] + a)[1..] == a;
      }
    }
  }

  function ShownKeys(keys: seq<Key>): (r: seq<bool>)
    ensures |r| == |keys| && forall i :: 0 <= i < |r| ==> r[i] == Shown(keys[i])
  {
    seq(|keys|, i requires 0 <= i < |keys| => Shown(keys[i]))
  }

  ghost function AllGroups(keys: seq<Key>, light: Light): seq<seq<nat>>
    requires Printable(keys, |light|)
  {
    Groups(keys, light, ShownKeys(keys), 0)
  }

  /** All shown keys but the first have the colour of the first key, shown or not. */
  predicate Same(keys: seq<Key>, light: Light)
    requires keys != [] && forall i :: 0 <= i < |keys| ==> keys[i].led < |light|
    requires keys[0].led >= 0
  {
    forall i :: 1 <= i < |keys| && Shown(keys[i]) ==> ColourOf(keys, light, i) == ColourOf(keys, light, 0)
  }

  ghost function LineWords(keys: seq<Key>, light: Light, groups: seq<seq<nat>>): (r: seq<string>)
    requires forall n :: 0 <= n < |groups| ==> Uniform(keys, light, groups[n])
    ensures |r| == |groups| && forall n :: 0 <= n < |r| ==> r[n] == WordOf(keys, light, groups[n])
  {
    seq(|groups|, n requires 0 <= n < |groups| => WordOf(keys, light, groups[n]))
  }

  /** The line printrgb makes. */
  ghost function Printed(keys: seq<Key>, light: Light): string
    requires Printable(keys, |light|)
  {
    if Same(keys, light) then Hex6(ColourOf(keys, light, 0))
    else
      GroupsUniform(keys, light, ShownKeys(keys), 0);
      Join(LineWords(keys, light, AllGroups(keys, light)), ' ')
  }

  /** A key is printed exactly if it has an LED and a name and exists in the layout, and then
      once. */
  lemma PrintedExactly(keys: seq<Key>, light: Light, k: nat)
    requires Printable(keys, |light|)
    ensures Occurs(AllGroups(keys, light), k)
            == if k < |keys| && keys[k].led >= 0 && keys[k].has && keys[k].name != "" then 1 else 0
  {
    PrintedOnce(keys, light, ShownKeys(keys), 0, k);
  }

  /** If all those keys have the colour of the first key, the line is that colour alone. */
  lemma Shortcut(keys: seq<Key>, light: Light)
    requires Printable(keys, |light|)
    requires forall i :: 1 <= i < |keys| && keys[i].led >= 0 && keys[i].has && keys[i].name != "" ==>
      light[keys[i].led] == light[keys[0].led]
    ensures Printed(keys, light) == Hex6(light[keys[0].led])
  {}

  lemma WordGood(keys: seq<Key>, target: Light, group: seq<nat>)
    requires Sound(keys, |target|) && Uniform(keys, target, group)
    ensures WordOf(keys, target, group) != "" && Free(WordOf(keys, target, group), Blanks)
  {
    GoodNames(keys, |target|, group);
    WordComesApart(Names(keys, group), ColourOf(keys, target, group[0]));
  }

  lemma LineComesApart(keys: seq<Key>, target: Light, groups: seq<seq<nat>>)
    requires Sound(keys, |target|) && forall n :: 0 <= n < |groups| ==> Uniform(keys, target, groups[n])
    ensures Words(Join(LineWords(keys, target, groups), ' ')) == LineWords(keys, target, groups)
  {
    var words := LineWords(keys, target, groups);
    forall n | 0 <= n < |words| ensures words[n] != "" && Free(words[n], Blanks) {
      WordGood(keys, target, groups[n]);
    }
    WordsOfJoin(words);
  }

  /** Reading all words: every LED of a printed key ends with the colour printed. */
  lemma {:induction false} RunPrintedWords(keys: seq<Key>, target: Light, light: Light, groups: seq<seq<nat>>, k: nat)
    requires Sound(keys, |target|) && |light| == |target|
    requires forall n :: 0 <= n < |groups| ==> Uniform(keys, target, groups[n])
    ensures var r := RunWords(keys, light, LineWords(keys, target, groups));
      Towards(target, light, r) && (Occurs(groups, k) > 0 ==> AgreesOn(keys, target, r, k))
    decreases |groups|
  {
    if groups != [] {
      var g := groups[0];
      RunPrintedWord(keys, target, light, g);
      var light' := RunWord(keys, light, WordOf(keys, target, g));
      RunPrintedWords(keys, target, light', groups[1..], k);
      var r := RunWords(keys, light', LineWords(keys, target, groups[1..]));
      assert r == RunWords(keys, light, LineWords(keys, target, groups)) by {
        assert LineWords(keys, target, groups)[1..] == LineWords(keys, target, groups[1..]);
      }
      assert Towards(target, light, r);
      if Times(g, k) > 0 {
        TimesMember(g, k);
        TowardsTrans(keys, target, light, light', r, k);
      }
    }
  }

  lemma {:induction false} SetAllFacts(keys: seq<Key>, light: Light, n: nat, code: string, i: nat)
    requires ScanColour(code).0 && n <= |keys| && i < n && 0 <= keys[i].led
    requires forall j :: 0 <= j < |keys| ==> keys[j].led < |light|
    ensures SetAll(keys, light, n, code)[keys[i].led] == ScanColour(code).1
  {
    if i < n - 1 { SetAllFacts(keys, light, n - 1, code, i); }
  }

  lemma RestoresAll(keys: seq<Key>, target: Light, light: Light, k: nat)
    requires Sound(keys, |target|) && |light| == |target| && k < |keys| && Shown(keys[k]) && Same(keys, target)
    ensures AgreesOn(keys, target, RunWords(keys, light, Words(Hex6(ColourOf(keys, target, 0)))), k)
  {
    var c := ColourOf(keys, target, 0);
    ScanPrinted(c);
    SetAllFacts(keys, light, |keys|, Hex6(c), k);
    SingleWord(Hex6(c));
    OneWord(keys, light, Hex6(c));
  }

  lemma OneWord(keys: seq<Key>, light: Light, word: string)
    requires forall i :: 0 <= i < |keys| ==> keys[i].led < |light|
    ensures RunWords(keys, light, [word]) == RunWord(keys, light, word)
  {
    assert [word][1..] == [];
  }

  lemma RestoresGroups(keys: seq<Key>, target: Light, light: Light, groups: seq<seq<nat>>, k: nat)
    requires Sound(keys, |target|) && |light| == |target| && Occurs(groups, k) > 0
    requires forall n :: 0 <= n < |groups| ==> Uniform(keys, target, groups[n])
    ensures var r := RunWords(keys, light, Words(Join(LineWords(keys, target, groups), ' ')));
      AgreesOn(keys, target, r, k) && Towards(target, light, r)
  {
    LineComesApart(keys, target, groups);
    RunPrintedWords(keys, target, light, groups, k);
  }

  /** Printing a lighting state and reading the line back on any other state restores the
      colour of every shown key, by the all-keys shortcut or key by key, and with several
      keys on one LED; without the shortcut no other colour is written anywhere. */
  lemma PrintedRestores(keys: seq<Key>, target: Light, light: Light, k: nat)
    requires Sound(keys, |target|) && |light| == |target| && k < |keys| && Shown(keys[k])
    ensures var r := RunWords(keys, light, Words(Printed(keys, target)));
      && AgreesOn(keys, target, r, k)
      && (Same(keys, target) || Towards(target, light, r))
  {
    if Same(keys, target) {
      RestoresAll(keys, target, light, k);
    } else {
      GroupsUniform(keys, target, ShownKeys(keys), 0);
      PrintedOnce(keys, target, ShownKeys(keys), 0, k);
      RestoresGroups(keys, target, light, AllGroups(keys, target), k);
    }
  }

  lemma SingleWord(word: string)
    requires word != "" && Free(word, Separators)
    ensures Words(word) == [word]
  {
    assert Free(word, Blanks);
    assert Join([word], ' ') == word;
    WordsOfJoin([word]);
  }
}
