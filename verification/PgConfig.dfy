/**
 Postgres configuration text (rewriteConfig, appendExtraConf and readConfig of
 internal/provision/databases/postgres/pgconfig/configuration.go).
 */
module PgConfig {

  // ----------------------------------------------------------- text tools

  /** unicode.IsSpace */
  predicate IsSpace(c: char) {
    var u := c as int;
    || 0x09 <= u <= 0x0D || u == 0x20 || u == 0x85 || u == 0xA0 || u == 0x1680
    || 0x2000 <= u <= 0x200A || u == 0x2028 || u == 0x2029 || u == 0x202F || u == 0x205F || u == 0x3000
  }

  predicate IsQuote(c: char) {
    c == '\''
  }

  function TrimLeft(s: string, cut: char -> bool): string {
    if s != "" && cut(s[0]) then TrimLeft(s[1..], cut) else s
  }

  function TrimRight(s: string, cut: char -> bool): string {
    if s != "" && cut(s[|s| - 1]) then TrimRight(s[..|s| - 1], cut) else s
  }

  function Trim(s: string, cut: char -> bool): string {
    TrimRight(TrimLeft(s, cut), cut)
  }

  /** The text neither starts nor ends with a character of the cut set. */
  predicate Tight(s: string, cut: char -> bool) {
    s != "" ==> !cut(s[0]) && !cut(s[|s| - 1])
  }

  lemma {:induction false} TrimLeftSound(s: string, cut: char -> bool)
    ensures var r := TrimLeft(s, cut); (r != "" ==> !cut(r[0])) && |r| <= |s| && r == s[|s| - |r|..]
  {
    if s != "" && cut(s[0]) {
      TrimLeftSound(s[1..], cut);
    }
  }

  lemma {:induction false} TrimRightSound(s: string, cut: char -> bool)
    ensures var r := TrimRight(s, cut); (r != "" ==> !cut(r[|r| - 1])) && r <= s
  {
    if s != "" && cut(s[|s| - 1]) {
      TrimRightSound(s[..|s| - 1], cut);
    }
  }

  /** Trimming yields a tight part of the text, and leaves tight texts alone. */
  lemma TrimSound(s: string, cut: char -> bool)
    ensures Tight(Trim(s, cut), cut)
    ensures forall c :: c in Trim(s, cut) ==> c in s
    ensures Tight(s, cut) ==> Trim(s, cut) == s
  {
    var l := TrimLeft(s, cut);
    TrimLeftSound(s, cut);
    TrimRightSound(l, cut);
    SuffixWithin(l, s);
    PrefixWithin(TrimRight(l, cut), l);
  }

  lemma SuffixWithin(part: string, s: string)
    requires |part| <= |s| && part == s[|s| - |part|..]
    ensures forall c :: c in part ==> c in s
  {
  }

  lemma PrefixWithin(part: string, s: string)
    requires part <= s
    ensures forall c :: c in part ==> c in s
  {
  }

  /** Position of the first `c`, or the length of the text. */
  function IndexOf(s: string, c: char): (i: nat)
    ensures i <= |s| && (i < |s| ==> s[i] == c) && forall k :: 0 <= k < i ==> s[k] != c
  {
    if s == "" || s[0] == c then 0 else 1 + IndexOf(s[1..], c)
  }

  lemma IndexIs(s: string, c: char, i: nat)
    requires i <= |s| && (i < |s| ==> s[i] == c) && forall k :: 0 <= k < i ==> s[k] != c
    ensures IndexOf(s, c) == i
  {
  }

  // ------------------------------------------------------------ the reader

  function DropCR(line: string): string {
    if line != "" && line[|line| - 1] == '\r' then line[..|line| - 1] else line
  }

  /** One scanned line; a line without '=' says nothing. */
  function ReadLine(line: string, config: map<string, string>): map<string, string> {
    var i := IndexOf(line, '=');
    if i == |line| then config
    else config[Trim(line[..i], IsSpace) := Trim(Trim(line[i + 1..], IsSpace), IsQuote)]
  }

  /** The scan loop, from `config` on: lines end at a newline, a carriage return before it is dropped. */
  function ReadFrom(text: string, config: map<string, string>): map<string, string>
    decreases |text|
  {
    if text == "" then config
    else
      var i := IndexOf(text, '\n');
      var config1 := ReadLine(DropCR(text[..i]), config);
      if i == |text| then config1 else ReadFrom(text[i + 1..], config1)
  }

  function Read(text: string): map<string, string> {
    ReadFrom(text, map[])
  }

  // ------------------------------------------------------------ the writer

  function Line(key: string, value: string): string {
    key + " = '" + value + "'"
  }

  /** The lines of the map in the given key order, joined by newlines. */
  function Render(order: seq<string>, config: map<string, string>): string
    requires forall k :: k in order ==> k in config
  {
    if order == [] then ""
    else if |order| == 1 then Line(order[0], config[order[0]])
    else Line(order[0], config[order[0]]) + "\n" + Render(order[1..], config)
  }

  /** A map iteration order: every key once. */
  predicate OrderOf(order: seq<string>, config: map<string, string>) {
    && (forall k :: k in order ==> k in config)
    && (forall k :: k in config ==> k in order)
    && (forall i, j :: 0 <= i < j < |order| ==> order[i] != order[j])
  }

  // ------------------------------------------------------------ round trip

  predicate KeyOk(key: string) {
    Trim(key, IsSpace) == key && '=' !in key && '\n' !in key
  }

  predicate ValueOk(value: string) {
    Tight(value, IsQuote) && '\n' !in value
  }

  predicate WellFormed(config: map<string, string>) {
    forall k :: k in config ==> KeyOk(k) && ValueOk(config[k])
  }

  lemma QuotedValue(value: string)
    requires ValueOk(value)
    ensures Trim(Trim(" '" + value + "'", IsSpace), IsQuote) == value
  {
    var quoted := "'" + value + "'";
    var s := " " + quoted;
    assert " '" + value + "'" == s;
    assert s[1..] == quoted && quoted[0] == '\'' && quoted[|quoted| - 1] == '\'';
    assert TrimLeft(quoted, IsSpace) == quoted == TrimLeft(s, IsSpace);
    assert TrimRight(quoted, IsSpace) == quoted;
    assert quoted[1..] == value + "'";
    assert TrimLeft(quoted, IsQuote) == TrimLeft(value + "'", IsQuote);
    if value == "" {
      assert "" + "'" == "'" && TrimLeft("'", IsQuote) == TrimLeft("", IsQuote) == "";
    } else {
      assert TrimLeft(value + "'", IsQuote) == value + "'";
      assert (value + "'")[..|value|] == value;
      assert TrimRight(value + "'", IsQuote) == TrimRight(value, IsQuote) == value;
    }
  }

  lemma ReadRendered(key: string, value: string, config: map<string, string>)
    requires KeyOk(key) && ValueOk(value)
    ensures '\n' !in Line(key, value) && DropCR(Line(key, value)) == Line(key, value)
    ensures ReadLine(Line(key, value), config) == config[key := value]
  {
    var line := Line(key, value);
    assert line == key + (" = '" + value + "'");
    assert line == (key + " ") + ("= '" + value + "'");
    assert line[|key| + 1] == '=';
    IndexIs(line, '=', |key| + 1);
    assert line[..|key| + 1] == key + " ";
    assert line[|key| + 2..] == " '" + value + "'";
    QuotedValue(value);
    TrimmedKey(key);
  }

  lemma TrimmedKey(key: string)
    requires Trim(key, IsSpace) == key
    ensures Trim(key + " ", IsSpace) == key
  {
    TrimSound(key, IsSpace);
    if key == "" {
      assert TrimLeft(" ", IsSpace) == TrimLeft("", IsSpace);
    } else {
      assert TrimLeft(key + " ", IsSpace) == key + " ";
      assert (key + " ")[..|key|] == key;
    }
  }

  lemma ReadFirstLine(line: string, b: string, config: map<string, string>)
    requires '\n' !in line
    ensures ReadFrom(line + "\n" + b, config) == ReadFrom(b, ReadLine(DropCR(line), config))
    ensures ReadFrom(line, config) == ReadLine(DropCR(line), config)
  {
    var text := line + "\n" + b;
    assert text[|line|] == '\n' && text[..|line|] == line && text[|line| + 1..] == b;
    IndexIs(text, '\n', |line|);
    IndexIs(line, '\n', |line|);
    assert line[..|line|] == line;
  }

  /** Reading a text after another one. */
  lemma {:induction false} ReadConcat(a: string, b: string, config: map<string, string>)
    ensures ReadFrom(a + "\n" + b, config) == ReadFrom(b, ReadFrom(a, config))
    decreases |a|
  {
    var i := IndexOf(a, '\n');
    if i == |a| {
      ReadFirstLine(a, b, config);
    } else {
      var line, rest := a[..i], a[i + 1..];
      assert a == line + "\n" + rest;
      assert a + "\n" + b == line + "\n" + (rest + "\n" + b);
      ReadFirstLine(line, rest, config);
      ReadFirstLine(line, rest + "\n" + b, config);
      ReadConcat(rest, b, ReadLine(DropCR(line), config));
    }
  }

  function Restricted(order: seq<string>, config: map<string, string>): map<string, string>
    requires forall k :: k in order ==> k in config
  {
    map k | k in order :: config[k]
  }

  lemma {:induction false} ReadRender(order: seq<string>, config: map<string, string>, config0: map<string, string>)
    requires forall k :: k in order ==> k in config && KeyOk(k) && ValueOk(config[k])
    ensures ReadFrom(Render(order, config), config0) == config0 + Restricted(order, config)
  {
    if order == [] {
      assert Restricted(order, config) == map[];
    } else {
      var k, rest := order[0], order[1..];
      var config1 := config0[k := config[k]];
      ReadRendered(k, config[k], config0);
      ReadFirstLine(Line(k, config[k]), Render(rest, config), config0);
      ReadRender(rest, config, config1);
      RestrictedStep(order, config, config0);
    }
  }

  lemma RestrictedStep(order: seq<string>, config: map<string, string>, config0: map<string, string>)
    requires order != [] && forall k :: k in order ==> k in config
    ensures config0 + Restricted(order, config) ==
      config0[order[0] := config[order[0]]] + Restricted(order[1..], config)
  {
  }

  lemma ReadLineIsWellFormed(line: string, config: map<string, string>)
    requires WellFormed(config) && '\n' !in line
    ensures WellFormed(ReadLine(line, config))
  {
    var j := IndexOf(line, '=');
    if j < |line| {
      var k, v := Trim(line[..j], IsSpace), Trim(line[j + 1..], IsSpace);
      TrimSound(line[..j], IsSpace);
      TrimSound(k, IsSpace);
      TrimSound(line[j + 1..], IsSpace);
      TrimSound(v, IsQuote);
      assert KeyOk(k) && ValueOk(Trim(v, IsQuote));
    }
  }

  lemma {:induction false} ReadIsWellFormed(text: string, config: map<string, string>)
    requires WellFormed(config)
    ensures WellFormed(ReadFrom(text, config))
    decreases |text|
  {
    if text != "" {
      var i := IndexOf(text, '\n');
      var line := DropCR(text[..i]);
      ReadLineIsWellFormed(line, config);
      if i < |text| {
        ReadIsWellFormed(text[i + 1..], ReadLine(line, config));
      }
    }
  }

  /**
   Round trip: for every iteration order, reading what was written gives the map
   back if and only if its keys are trimmed and free of '=' and newlines, and
   its values are free of newlines and have no quote at either end.
   */
  lemma RoundTripIff(order: seq<string>, config: map<string, string>)
    requires OrderOf(order, config)
    ensures Read(Render(order, config)) == config <==> WellFormed(config)
  {
    if WellFormed(config) {
      ReadRender(order, config, map[]);
      AllRestricted(order, config);
      assert map[] + config == config;
    }
    ReadIsWellFormed(Render(order, config), map[]);
  }

  /** What appendExtraConf adds to a file. */
  function Appendix(order: seq<string>, config: map<string, string>): string
    requires forall k :: k in order ==> k in config
  {
    "\n" + Render(order, config)
  }

  lemma Regroup(a: string, b: string, c: string)
    ensures a + (b + c) == a + b + c
  {
  }

  lemma ReadAppended(before: string, text: string)
    ensures Read(before + ("\n" + text)) == ReadFrom(text, Read(before))
  {
    Regroup(before, "\n", text);
    ReadConcat(before, text, map[]);
  }

  lemma AllRestricted(order: seq<string>, config: map<string, string>)
    requires OrderOf(order, config)
    ensures Restricted(order, config) == config
  {
  }

  lemma AppendedReads(before: string, order: seq<string>, config: map<string, string>)
    requires OrderOf(order, config) && WellFormed(config)
    ensures Read(before + Appendix(order, config)) == Read(before) + config
  {
    ReadAppended(before, Render(order, config));
    ReadRender(order, config, Read(before));
    AllRestricted(order, config);
  }

  /**
   Whatever the file held before, appending overrides what it said with the new parameters, under
   the same condition.
   */
  lemma AppendOverridesIff(before: string, order: seq<string>, config: map<string, string>)
    requires OrderOf(order, config)
    ensures Read(before + Appendix(order, config)) == Read(before) + config <==> WellFormed(config)
  {
    var text := before + Appendix(order, config);
    if WellFormed(config) {
      AppendedReads(before, order, config);
    }
    ReadIsWellFormed(text, map[]);
    if Read(text) == Read(before) + config {
      forall k | k in config ensures KeyOk(k) && ValueOk(config[k]) {
        assert k in Read(text) && Read(text)[k] == config[k];
      }
    }
  }

  // -------------------------------------------------- what a line says

  predicate AllOf(s: string, cut: char -> bool) {
    forall k :: 0 <= k < |s| ==> cut(s[k])
  }

  lemma {:induction false} TrimLeftSkips(a: string, s: string, cut: char -> bool)
    requires AllOf(a, cut)
    ensures TrimLeft(a + s, cut) == TrimLeft(s, cut)
  {
    if a == "" {
      assert a + s == s;
    } else {
      assert (a + s)[1..] == a[1..] + s;
      TrimLeftSkips(a[1..], s, cut);
    }
  }

  lemma {:induction false} TrimRightSkips(s: string, b: string, cut: char -> bool)
    requires AllOf(b, cut)
    ensures TrimRight(s + b, cut) == TrimRight(s, cut)
  {
    if b == "" {
      assert s + b == s;
    } else {
      var n := |b| - 1;
      assert (s + b)[..|s + b| - 1] == s + b[..n];
      TrimRightSkips(s, b[..n], cut);
    }
  }

  /** Trimming takes away exactly the characters of the cut set at both ends. */
  lemma TrimIs(a: string, middle: string, b: string, cut: char -> bool)
    requires AllOf(a, cut) && Tight(middle, cut) && AllOf(b, cut)
    ensures Trim(a + middle + b, cut) == middle
  {
    assert a + middle + b == a + (middle + b);
    TrimLeftSkips(a, middle + b, cut);
    if middle == "" {
      assert middle + b == b + "";
      TrimLeftSkips(b, "", cut);
    } else {
      assert TrimLeft(middle + b, cut) == middle + b;
      TrimRightSkips(middle, b, cut);
    }
  }

  /**
   The parts of a line that names a parameter: space, key, space, then after the '=' space,
   quotes, value, quotes, space.
   */
  datatype Parts = Parts(a: string, key: string, b: string, c: string, q: string, value: string, r: string, d: string) {
    function Quoted(): string {
      q + value + r
    }

    function Text(): string {
      a + key + b + "=" + (c + Quoted() + d)
    }

    ghost predicate Valid() {
      && AllOf(a, IsSpace) && AllOf(b, IsSpace) && AllOf(c, IsSpace) && AllOf(d, IsSpace)
      && AllOf(q, IsQuote) && AllOf(r, IsQuote) && Tight(value, IsQuote)
      && Tight(key, IsSpace) && '=' !in key && Tight(Quoted(), IsSpace)
    }
  }

  lemma NoEquals(s: string)
    requires AllOf(s, IsSpace)
    ensures '=' !in s
  {
  }

  lemma ReadParts(p: Parts, config: map<string, string>)
    requires p.Valid()
    ensures ReadLine(p.Text(), config) == config[p.key := p.value]
  {
    var left := p.a + p.key + p.b;
    NoEquals(p.a);
    NoEquals(p.b);
    assert p.Text() == left + ("=" + (p.c + p.Quoted() + p.d));
    assert p.Text()[|left|] == '=' && p.Text()[..|left|] == left;
    assert p.Text()[|left| + 1..] == p.c + p.Quoted() + p.d;
    IndexIs(p.Text(), '=', |left|);
    TrimIs(p.a, p.key, p.b, IsSpace);
    TrimIs(p.c, p.Quoted(), p.d, IsSpace);
    TrimIs(p.q, p.value, p.r, IsQuote);
  }

  /** What a line says, whatever spaces and quotes it has, and whether it ends with a carriage return or not. */
  lemma LineSays(p: Parts, rest: string, config: map<string, string>)
    requires p.Valid() && '\n' !in p.Text()
    ensures ReadFrom(p.Text() + "\n" + rest, config) == ReadFrom(rest, config[p.key := p.value])
    ensures ReadFrom(p.Text() + "\r" + "\n" + rest, config) == ReadFrom(rest, config[p.key := p.value])
  {
    var returned := p.Text() + "\r";
    assert returned[..|returned| - 1] == p.Text();
    ReadFirstLine(p.Text(), rest, config);
    ReadFirstLine(returned, rest, config);
    ReadParts(p, config);
    ReadDropped(p, config);
  }

  lemma ReadDropped(p: Parts, config: map<string, string>)
    requires p.Valid()
    ensures ReadLine(DropCR(p.Text()), config) == config[p.key := p.value]
  {
    ReadParts(p, config);
    if DropCR(p.Text()) != p.Text() {
      DroppedIs(p);
      ReadParts(if p.d != "" then p.(d := p.d[..|p.d| - 1]) else p.(c := p.c[..|p.c| - 1]), config);
    }
  }

  /** A carriage return at the end of the text is one of its spaces. */
  lemma DroppedIs(p: Parts)
    requires p.Valid() && DropCR(p.Text()) != p.Text()
    ensures p.d != "" || (p.c != "" && p.Quoted() == "")
    ensures var p' := if p.d != "" then p.(d := p.d[..|p.d| - 1]) else p.(c := p.c[..|p.c| - 1]);
      p'.Valid() && DropCR(p.Text()) == p'.Text()
  {
    var text := p.Text();
    assert text[|text| - 1] == '\r';
    assert IsSpace('\r') && !IsQuote('\r');
    assert p.d == "" ==> text == p.a + p.key + p.b + "=" + p.c + p.Quoted();
  }

  /** A line without '=' says nothing. */
  lemma LineSaysNothing(line: string, rest: string, config: map<string, string>)
    requires '\n' !in line && '=' !in line
    ensures ReadFrom(line + "\n" + rest, config) == ReadFrom(rest, config)
  {
    ReadFirstLine(line, rest, config);
    IndexIs(DropCR(line), '=', |DropCR(line)|);
  }
}
