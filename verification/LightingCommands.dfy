/** The loops of printrgb and of the RGB command, over the arrays they change. */
module LightingCommands {
  import opened LightingText
  import opened Lighting

  ghost function LiveOf(names: seq<string>): (r: seq<bool>)
    ensures |r| == |names| && forall i :: 0 <= i < |r| ==> r[i] == (names[i] != "")
  {
    seq(|names|, i requires 0 <= i < |names| => names[i] != "")
  }

  lemma {:induction false} JoinSnoc(parts: seq<string>, part: string, sep: char)
    ensures Join(parts + [part], sep) == if parts == [] then part else Join(parts, sep) + [sep] + part
    decreases |parts|
  {
    if parts == [] {
      assert [] + [part] == [part];
    } else if |parts| == 1 {
      assert (parts + [part])[1..] == [part];
    } else {
      JoinSnoc(parts[1..], part, sep);
      assert (parts + [part])[1..] == parts[1..] + [part];
      assert Join(parts, sep) + [sep] + part == parts[0] + [sep] + (Join(parts[1..], sep) + [sep] + part);
    }
  }

  /** Names that are still to be printed are those of the key map. */
  ghost predicate Named(keys: seq<Key>, light: Light, names: seq<string>) {
    && |names| == |keys|
    && forall i :: 0 <= i < |keys| && names[i] != "" ==>
         names[i] == keys[i].name && Shown(keys[i]) && keys[i].led < |light|
  }

  lemma NamesSnoc(keys: seq<Key>, group: seq<nat>, k: nat)
    requires (forall j :: 0 <= j < |group| ==> group[j] < |keys|) && k < |keys|
    ensures Names(keys, group + [k]) == Names(keys, group) + [keys[k].name]
  {}

  /** The look-ahead applies to key `k`. */
  ghost predicate Matches(keys: seq<Key>, light: Light, names: seq<string>, i: nat, k: nat)
    requires Named(keys, light, names) && i < |keys| && names[i] != "" && k < |keys|
  {
    names[k] != "" && ColourOf(keys, light, k) == ColourOf(keys, light, i)
  }

  /** The names when the look-ahead of key `i` has come to `j`. */
  ghost function Erased(keys: seq<Key>, light: Light, names: seq<string>, i: nat, j: nat): (r: seq<string>)
    requires Named(keys, light, names) && i < |keys| && names[i] != ""
    ensures |r| == |keys|
  {
    seq(|keys|, k requires 0 <= k < |keys| => if i < k < j && Matches(keys, light, names, i, k) then "" else names[k])
  }

  lemma ErasedNext(keys: seq<Key>, light: Light, names: seq<string>, i: nat, j: nat)
    requires Named(keys, light, names) && i < j < |keys| && names[i] != ""
    ensures Erased(keys, light, names, i, j)[j] == names[j]
    ensures Erased(keys, light, names, i, j + 1)
            == if Matches(keys, light, names, i, j) then Erased(keys, light, names, i, j)[j := ""] else Erased(keys, light, names, i, j)
  {}

  lemma ErasedAll(keys: seq<Key>, light: Light, names: seq<string>, i: nat)
    requires Named(keys, light, names) && i < |keys| && names[i] != ""
    ensures Erased(keys, light, names, i, i + 1) == names
    ensures var r := Erased(keys, light, names, i, |keys|);
      Named(keys, light, r) && Alive(keys, light, LiveOf(names)) && LiveOf(r) == Erase(keys, light, LiveOf(names), i)
  {
    assert Alive(keys, light, LiveOf(names));
    assert LiveOf(Erased(keys, light, names, i, |keys|)) == Erase(keys, light, LiveOf(names), i);
  }

  /** What the look-ahead still has to print from `j` on, and its first element. */
  lemma AlikeNext(keys: seq<Key>, light: Light, names: seq<string>, i: nat, j: nat)
    requires Named(keys, light, names) && i < j < |keys| && names[i] != ""
    ensures Alive(keys, light, LiveOf(names))
    ensures var a, b := Alike(keys, light, LiveOf(names), i, j), Alike(keys, light, LiveOf(names), i, j + 1);
      a == if Matches(keys, light, names, i, j) then [j] + b else b
  {
    var b := Alike(keys, light, LiveOf(names), i, j + 1);
    assert [] + b == b;
  }

  lemma GroupNext(group: seq<nat>, j: nat, rest: seq<nat>)
    ensures group + ([j] + rest) == group + [j] + rest
  {}

  /** Printing the group of key `i` has come to key `j`: `all` is what the group will be. */
  ghost predicate Looking(keys: seq<Key>, light: Light, names0: seq<string>, names: seq<string>, i: nat, j: nat,
                          group: seq<nat>, word: string, all: seq<nat>) {
    && Named(keys, light, names0) && i < j <= |keys| && names0[i] != ""
    && Alive(keys, light, LiveOf(names0))
    && all == group + Alike(keys, light, LiveOf(names0), i, j)
    && group != [] && (forall k :: 0 <= k < |group| ==> group[k] < |keys|)
    && word == Join(Names(keys, group), ',')
    && names == Erased(keys, light, names0, i, j)
  }

  /** One turn of the look-ahead. */
  method Look(keys: seq<Key>, light: Light, names: array<string>, i: nat, j: nat, word: string,
              ghost names0: seq<string>, ghost group: seq<nat>, ghost all: seq<nat>)
    returns (r: string, ghost group': seq<nat>)
    requires Looking(keys, light, names0, names[..], i, j, group, word, all) && j < |keys|
    modifies names
    ensures Looking(keys, light, names0, names[..], i, j + 1, group', r, all)
  {
    AlikeNext(keys, light, names0, i, j);
    ErasedNext(keys, light, names0, i, j);
    assert names[j] == names[..][j] == names0[j];
    r, group' := word, group;
    if names[j] != "" && light[keys[j].led] == light[keys[i].led] {
      GroupNext(group, j, Alike(keys, light, LiveOf(names0), i, j + 1));
      r := Append(keys, names, j, word, group);
      group' := group + [j];
    }
  }

  /** One key of the outer loop: its name, and the names of the later keys with its colour,
      which are erased. */
  method PrintGroup(keys: seq<Key>, light: Light, names: array<string>, i: nat) returns (word: string, ghost group: seq<nat>)
    requires Named(keys, light, names[..]) && i < |keys| && names[i] != ""
    modifies names
    ensures Alive(keys, light, LiveOf(old(names[..]))) && group == [i] + Alike(keys, light, LiveOf(old(names[..])), i, i + 1)
    ensures (forall k :: 0 <= k < |group| ==> group[k] < |keys|) && word == Join(Names(keys, group), ',')
    ensures names[..] == Erased(keys, light, old(names[..]), i, |keys|)
  {
    ghost var names0 := names[..];
    ErasedAll(keys, light, names0, i);
    ghost var all := [i] + Alike(keys, light, LiveOf(names0), i, i + 1);
    word := names[i];
    group := [i];
    var j: nat := i + 1;
    assert Names(keys, [i]) == [keys[i].name];
    while j < |keys|
      invariant Looking(keys, light, names0, names[..], i, j, group, word, all)
    {
      word, group := Look(keys, light, names, i, j, word, names0, group, all);
      j := j + 1;
    }
    assert group + [] == group;
  }

  /** Print one more name and erase it. */
  method Append(keys: seq<Key>, names: array<string>, j: nat, word: string, ghost group: seq<nat>) returns (r: string)
    requires j < |keys| && j < names.Length && names[j] == keys[j].name
    requires group != [] && forall k :: 0 <= k < |group| ==> group[k] < |keys|
    requires word == Join(Names(keys, group), ',')
    modifies names
    ensures names[..] == old(names[..])[j := ""]
    ensures r == Join(Names(keys, group + [j]), ',')
  {
    NamesSnoc(keys, group, j);
    JoinSnoc(Names(keys, group), keys[j].name, ',');
    r := word + [','] + names[j];
    names[j] := "";
  }

  lemma WordIs(keys: seq<Key>, light: Light, names: seq<string>, i: nat)
    requires Named(keys, light, names) && i < |keys| && names[i] != ""
    ensures Alive(keys, light, LiveOf(names)) && Uniform(keys, light, [i] + Alike(keys, light, LiveOf(names), i, i + 1))
  {
    AlikeUniform(keys, light, LiveOf(names), i, i + 1);
    FirstUniform(keys, light, i, Alike(keys, light, LiveOf(names), i, i + 1));
  }

  /** The words still to be printed from key `i` on. */
  ghost function Remaining(keys: seq<Key>, light: Light, names: seq<string>, i: nat): seq<string>
    requires Named(keys, light, names) && i <= |keys|
  {
    GroupsUniform(keys, light, LiveOf(names), i);
    LineWords(keys, light, Groups(keys, light, LiveOf(names), i))
  }

  lemma RemainingNext(keys: seq<Key>, light: Light, names: seq<string>, i: nat)
    requires Named(keys, light, names) && i < |keys|
    ensures names[i] == "" ==> Remaining(keys, light, names, i) == Remaining(keys, light, names, i + 1)
    ensures names[i] != "" ==>
      && Named(keys, light, Erased(keys, light, names, i, |keys|))
      && Alive(keys, light, LiveOf(names)) && Uniform(keys, light, [i] + Alike(keys, light, LiveOf(names), i, i + 1))
      && Remaining(keys, light, names, i) == [WordOf(keys, light, [i] + Alike(keys, light, LiveOf(names), i, i + 1))]
           + Remaining(keys, light, Erased(keys, light, names, i, |keys|), i + 1)
  {
    if names[i] != "" {
      ErasedAll(keys, light, names, i);
      WordIs(keys, light, names, i);
      var live' := Erase(keys, light, LiveOf(names), i);
      assert LiveOf(Erased(keys, light, names, i, |keys|)) == live';
      GroupsUniform(keys, light, live', i + 1);
      LineCons(keys, light, [i] + Alike(keys, light, LiveOf(names), i, i + 1), Groups(keys, light, live', i + 1));
    }
  }

  lemma LineCons(keys: seq<Key>, light: Light, g: seq<nat>, rest: seq<seq<nat>>)
    requires Uniform(keys, light, g) && forall n :: 0 <= n < |rest| ==> Uniform(keys, light, rest[n])
    ensures LineWords(keys, light, [g] + rest) == [WordOf(keys, light, g)] + LineWords(keys, light, rest)
  {}

  lemma MoveOn(done: seq<string>, w: string, rest: seq<string>)
    ensures done + ([w] + rest) == (done + [w]) + rest
  {}

  /** The words printed so far and the words still to come make `all`. */
  ghost predicate Printing(keys: seq<Key>, light: Light, names: seq<string>, i: nat, buffer: string, done: seq<string>, all: seq<string>) {
    && Named(keys, light, names) && i <= |keys|
    && all == done + Remaining(keys, light, names, i)
    && buffer == Join(done, ' ') && (buffer == "" <==> done == [])
  }

  lemma PrintingEnds(keys: seq<Key>, light: Light, names: seq<string>, buffer: string, done: seq<string>, all: seq<string>)
    requires Printing(keys, light, names, |keys|, buffer, done, all)
    ensures buffer == Join(all, ' ')
  {
    assert done + [] == done;
  }

  /** The outer loop of printrgb. */
  method PrintGroups(keys: seq<Key>, light: Light, names: array<string>) returns (buffer: string)
    requires Printable(keys, |light|) && Named(keys, light, names[..])
    modifies names
    ensures buffer == Join(Remaining(keys, light, old(names[..]), 0), ' ')
  {
    buffer := "";
    ghost var all := Remaining(keys, light, names[..], 0);
    ghost var done: seq<string> := [];
    var i: nat := 0;
    while i < |keys|
      invariant Printing(keys, light, names[..], i, buffer, done, all)
    {
      buffer, done := PrintKey(keys, light, names, i, buffer, done, all);
      i := i + 1;
    }
    PrintingEnds(keys, light, names[..], buffer, done, all);
  }

  method PrintKey(keys: seq<Key>, light: Light, names: array<string>, i: nat, buffer: string,
                  ghost done: seq<string>, ghost all: seq<string>) returns (r: string, ghost done': seq<string>)
    requires Printable(keys, |light|) && i < |keys| && Printing(keys, light, names[..], i, buffer, done, all)
    modifies names
    ensures Printing(keys, light, names[..], i + 1, r, done', all)
  {
    RemainingNext(keys, light, names[..], i);
    r, done' := buffer, done;
    if names[i] != "" {
      r, done' := PrintWord(keys, light, names, i, buffer, done);
    }
  }

  /** Print the group of key `i` behind what is there. */
  method PrintWord(keys: seq<Key>, light: Light, names: array<string>, i: nat, buffer: string, ghost done: seq<string>)
    returns (r: string, ghost done': seq<string>)
    requires Printable(keys, |light|) && Named(keys, light, names[..]) && i < |keys| && names[i] != ""
    requires buffer == Join(done, ' ') && (buffer == "" <==> done == [])
    modifies names
    ensures Named(keys, light, names[..])
    ensures done' + Remaining(keys, light, names[..], i + 1) == done + Remaining(keys, light, old(names[..]), i)
    ensures r == Join(done', ' ') && r != "" && done' != []
  {
    ghost var names0 := names[..];
    RemainingNext(keys, light, names0, i);
    ErasedAll(keys, light, names0, i);
    var word;
    ghost var group;
    word, group := PrintGroup(keys, light, names, i);
    word := word + ":" + Hex6(light[keys[i].led]);
    assert word == WordOf(keys, light, group);
    JoinSnoc(done, word, ' ');
    MoveOn(done, word, Remaining(keys, light, names[..], i + 1));
    r := if buffer == "" then word else buffer + " " + word;
    done' := done + [word];
  }

  /** printrgb. */
  method PrintRgb(keys: seq<Key>, light: Light) returns (buffer: string)
    requires Printable(keys, |light|)
    ensures buffer == Printed(keys, light)
  {
    var names := new string[|keys|](_ => "");
    var i := 0;
    while i < |keys|
      invariant 0 <= i <= |keys|
      invariant forall j :: 0 <= j < i ==> names[j] == if Shown(keys[j]) then keys[j].name else ""
    {
      names[i] := if keys[i].led < 0 || !keys[i].has then "" else keys[i].name;
      i := i + 1;
    }
    AllNamed(keys, light, names[..]);
    var same := true;
    i := 1;
    while i < |keys|
      invariant 1 <= i && same
      invariant forall j :: 1 <= j < i && j < |keys| && Shown(keys[j]) ==> ColourOf(keys, light, j) == ColourOf(keys, light, 0)
      invariant forall j :: 0 <= j < |keys| ==> names[j] == if Shown(keys[j]) then keys[j].name else ""
    {
      if names[i] != "" && light[keys[i].led] != light[keys[0].led] {
        same := false;
        break;
      }
      i := i + 1;
    }
    if same { return Hex6(light[keys[0].led]); }
    buffer := PrintGroups(keys, light, names);
  }

  lemma AllNamed(keys: seq<Key>, light: Light, names: seq<string>)
    requires Printable(keys, |light|) && |names| == |keys|
    requires forall j :: 0 <= j < |keys| ==> names[j] == if Shown(keys[j]) then keys[j].name else ""
    ensures Named(keys, light, names) && LiveOf(names) == ShownKeys(keys)
    ensures forall i :: 0 <= i < |keys| && Shown(keys[i]) ==> names[i] != ""
  {}

  // ----- reading a line

  /** cmd_rgb. */
  method Set(keys: seq<Key>, light: array<Colour>, i: nat, code: string)
    requires Mapped(keys, light.Length) && i < |keys|
    modifies light
    ensures light[..] == SetKey(keys, old(light[..]), i, code)
  {
    var index := keys[i].led;
    if index < 0 { return; }
    var scanned := ScanColour(code);
    if scanned.0 { light[index] := scanned.1; }
  }

  method SetEvery(keys: seq<Key>, light: array<Colour>, code: string)
    requires Mapped(keys, light.Length)
    modifies light
    ensures light[..] == SetAll(keys, old(light[..]), |keys|, code)
  {
    var i := 0;
    while i < |keys|
      invariant 0 <= i <= |keys| && light[..] == SetAll(keys, old(light[..]), i, code)
    {
      Set(keys, light, i, code);
      i := i + 1;
    }
  }

  /** The search through the key map for one field. */
  method SetNamed(keys: seq<Key>, light: array<Colour>, name: string, code: string)
    requires Mapped(keys, light.Length)
    modifies light
    ensures light[..] == RunName(keys, old(light[..]), name, code)
  {
    if name == "all" {
      SetEvery(keys, light, code);
      return;
    }
    var number := Number(name);
    if 0 <= number < |keys| {
      Set(keys, light, number, code);
      return;
    }
    var i: nat := 0;
    assert keys[0..] == keys;
    while i < |keys|
      invariant 0 <= i <= |keys| && light[..] == old(light[..])
      invariant Find(keys, name) == i + Find(keys[i..], name)
    {
      FindNext(keys, name, i);
      if keys[i].name == name {
        Set(keys, light, i, code);
        return;
      }
      i := i + 1;
    }
  }

  lemma FindNext(keys: seq<Key>, name: string, i: nat)
    requires i < |keys|
    ensures Find(keys[i..], name) == if keys[i].name == name then 0 else 1 + Find(keys[i + 1..], name)
  {
    assert keys[i..][1..] == keys[i + 1..];
  }

  /** One word: a colour for every key, or a list of keys with a colour. */
  method ReadWord(keys: seq<Key>, light: array<Colour>, word: string)
    requires Mapped(keys, light.Length)
    modifies light
    ensures light[..] == RunWord(keys, old(light[..]), word)
  {
    if ScanColour(word).0 {
      SetEvery(keys, light, word);
      return;
    }
    var left := Until(word, {':'});
    if left <= 0 { return; }
    ReadFields(keys, light, word[..left], if left < |word| then word[left + 1..] else "");
  }

  /** The fields from `position` on. */
  ghost function Ahead(left: string, position: nat): seq<string>
    requires position <= |left|
  {
    Fields(left[position..])
  }

  /** The length of the field at `position`. */
  function FieldAt(left: string, position: nat): (n: nat)
    requires position <= |left|
    ensures position + n <= |left|
  {
    Until(left[position..], {':', ','})
  }

  function Behind(left: string, p: nat): (r: nat)
    requires p <= |left|
    ensures p <= r <= |left|
  {
    if p < |left| && left[p] == ',' then p + 1 else p
  }

  lemma AheadNext(left: string, position: nat)
    requires position < |left|
    ensures var n := FieldAt(left, position);
      Ahead(left, position) == if n == 0 then [] else
        [left[position..position + n]] + Ahead(left, Behind(left, position + n))
  {
    var n := FieldAt(left, position);
    var rest := left[position..];
    assert rest[..n] == left[position..position + n];
    if n < |rest| {
      assert rest[n] == left[position + n];
      assert rest[n..] == left[position + n..];
      assert rest[n + 1..] == left[position + n + 1..];
    } else {
      assert left[position + n..] == "";
    }
  }

  lemma RunNamesCons(keys: seq<Key>, light: Light, name: string, more: seq<string>, code: string)
    requires Mapped(keys, |light|)
    ensures RunNames(keys, light, [name] + more, code) == RunNames(keys, RunName(keys, light, name, code), more, code)
  {
    assert ([name] + more)[1..] == more;
  }

  /** What is still to be done at `position` gives `target`; nothing is once a field is empty. */
  ghost predicate Reading(keys: seq<Key>, target: Light, light: Light, left: string, right: string, position: nat, field: nat) {
    && Mapped(keys, |light|) && position <= |left|
    && target == if field == 0 then light else RunNames(keys, light, Ahead(left, position), right)
  }

  /** One turn of the key-list loop of readcmd. */
  method ReadField(keys: seq<Key>, light: array<Colour>, left: string, right: string, position: nat)
    returns (field: nat, position': nat)
    requires Mapped(keys, light.Length) && position < |left|
    modifies light
    ensures Read(keys, old(light[..]), light[..], left, right, position, position', field)
    ensures position' >= position + field
  {
    field := FieldAt(left, position);
    if field == 0 { return 0, position; }
    var keyname := left[position..position + field];
    SetNamed(keys, light, keyname, right);
    position' := Behind(left, position + field);
  }

  /** What ReadField has done to the lighting and the position. */
  ghost predicate Read(keys: seq<Key>, light: Light, light': Light, left: string, right: string,
                       position: nat, position': nat, field: nat)
    requires Mapped(keys, |light|)
  {
    && position < |left| && field == FieldAt(left, position)
    && if field == 0 then position' == position && light' == light
       else position' == Behind(left, position + field) && light' == RunName(keys, light, left[position..position + field], right)
  }

  lemma ReadingNext(keys: seq<Key>, target: Light, light: Light, light': Light, left: string, right: string,
                    position: nat, position': nat, field: nat)
    requires Reading(keys, target, light, left, right, position, 1)
    requires Read(keys, light, light', left, right, position, position', field)
    ensures Reading(keys, target, light', left, right, position', field)
  {
    AheadNext(left, position);
    if field > 0 {
      RunNamesCons(keys, light, left[position..position + field], Ahead(left, position'), right);
    }
  }

  /** The key-list loop: `position` moves over the left side field by field. */
  method ReadFields(keys: seq<Key>, light: array<Colour>, left: string, right: string)
    requires Mapped(keys, light.Length)
    modifies light
    ensures light[..] == RunNames(keys, old(light[..]), Fields(left), right)
  {
    var position: nat, field: nat := 0, 1;
    ghost var target := RunNames(keys, light[..], Fields(left), right);
    ReadingStarts(keys, light[..], left, right);
    while position < |left| && field > 0
      invariant Reading(keys, target, light[..], left, right, position, field)
      decreases |left| - position, field
    {
      ghost var before, at := light[..], position;
      field, position := ReadField(keys, light, left, right, position);
      ReadingNext(keys, target, before, light[..], left, right, at, position, field);
    }
    ReadingEnds(keys, target, light[..], left, right, position, field);
  }

  lemma ReadingStarts(keys: seq<Key>, light: Light, left: string, right: string)
    requires Mapped(keys, |light|)
    ensures Reading(keys, RunNames(keys, light, Fields(left), right), light, left, right, 0, 1)
  {
    assert left[0..] == left;
  }

  lemma ReadingEnds(keys: seq<Key>, target: Light, light: Light, left: string, right: string, position: nat, field: nat)
    requires Reading(keys, target, light, left, right, position, field) && (position == |left| || field == 0)
    ensures light == target
  {
    if field > 0 { assert left[position..] == ""; }
  }

  /** The word loop of readcmd, for the words that follow `rgb`. */
  method ReadRgb(keys: seq<Key>, light: array<Colour>, line: string)
    requires Mapped(keys, light.Length)
    modifies light
    ensures light[..] == RunWords(keys, old(light[..]), Words(line))
  {
    var rest := Words(line);
    ghost var target := RunWords(keys, light[..], rest);
    while rest != []
      invariant Mapped(keys, light.Length) && |target| == light.Length && target == RunWords(keys, light[..], rest)
      decreases |rest|
    {
      ReadWord(keys, light, rest[0]);
      rest := rest[1..];
    }
  }

  /** What `get :rgb` reports, given back as an RGB command on any lighting state. */
  method PrintThenRead(keys: seq<Key>, saved: Light, light: array<Colour>)
    requires Sound(keys, |saved|) && light.Length == |saved|
    modifies light
    ensures forall k :: 0 <= k < |keys| && Shown(keys[k]) ==> AgreesOn(keys, saved, light[..], k)
  {
    ghost var before := light[..];
    var line := PrintRgb(keys, saved);
    ReadRgb(keys, light, line);
    forall k | 0 <= k < |keys| && Shown(keys[k]) ensures AgreesOn(keys, saved, light[..], k) {
      PrintedRestores(keys, saved, before, k);
    }
  }
}
