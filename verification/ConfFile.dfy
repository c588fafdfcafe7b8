/** A whole configuration file: settings written one after the other and read back line by line. */
module ConfFile {
  import opened Options
  import opened ConfString

  datatype Kind = Boolean | Tristate | Text

  /** n, m and y are 0, 1 and 2. */
  type Tri = x: int | 0 <= x <= 2

  datatype Value = Truth(t: Tri) | Str(s: string)

  datatype Setting = Setting(name: string, value: Value)

  type Config = map<string, Value>

  predicate NameChar(c: char) { Capital(c) || 'a' <= c <= 'z' || '0' <= c <= '9' || c in {'_', '-', '/', '.'} }

  /** A name as the configuration language has them. */
  predicate IsName(name: string) { name != "" && forall i :: 0 <= i < |name| ==> NameChar(name[i]) }

  predicate OfKind(value: Value, kind: Kind) {
    match value
    case Truth(t) => kind == Tristate || (kind == Boolean && t != 1)
    case Str(_) => kind == Text
  }

  // ----- writing -----

  function Letter(t: Tri): char { if t == 1 then 'm' else 'y' }

  const NOT_SET := "is not set"

  function Comment(name: string): string { ['#', ' '] + name + [' '] + NOT_SET }

  function WrittenLine(x: Setting): string {
    match x.value
    case Truth(t) =>
      if t == 0 then Comment(x.name) + ['\n']
      else x.name + ['='] + [Letter(t)] + ['\n']
    case Str(s) => Line(x.name, Quoted(s), "")
  }

  function Written(xs: seq<Setting>): string {
    if xs == [] then "" else Written(xs[..|xs| - 1]) + WrittenLine(xs[|xs| - 1])
  }

  method WriteConfig(xs: seq<Setting>) returns (out: string)
    ensures out == Written(xs)
  {
    out := "";
    for i := 0 to |xs|
      invariant out == Written(xs[..i])
    {
      var line := WrittenLine(xs[i]);
      if xs[i].value.Str? { line := WriteString(xs[i].name, xs[i].value.s); }
      assert xs[..i + 1][..i] == xs[..i];
      out := out + line;
    }
    assert xs[..|xs|] == xs;
  }

  // ----- reading -----

  /** The name in a comment line that says a setting is not set. */
  function NotSet(line: string): Option<string> {
    if |line| < 2 || line[0] != '#' || line[1] != ' ' then None
    else
      var r := line[2..];
      var k := Index(r, ' ');
      if k < |r| && NOT_SET <= r[k + 1..] then Some(r[..k]) else None
  }

  function Decoded(kind: Kind, p: string): Option<Value> {
    if kind == Text then
      match StringValue(p)
      case None => None
      case Some(s) => Some(Str(s))
    else if p == "" then None
    else if p[0] == 'm' && kind == Tristate then Some(Truth(1))
    else if p[0] == 'y' then Some(Truth(2))
    else if p[0] == 'n' then Some(Truth(0))
    else None
  }

  /** What a line says: a known symbol and a value it can have. */
  function Meaning(kinds: map<string, Kind>, line: string): (r: Option<Setting>)
    ensures r.Some? ==> r.value.name in kinds
  {
    if line != "" && line[0] == '#' then
      match NotSet(line)
      case None => None
      case Some(name) => if name in kinds && kinds[name] != Text then Some(Setting(name, Truth(0))) else None
    else
      match Assignment(line)
      case None => None
      case Some((name, p)) =>
        if name !in kinds || Decoded(kinds[name], p) == None then None
        else Some(Setting(name, Decoded(kinds[name], p).value))
  }

  /** A line takes effect unless its symbol has been set before. */
  function ReadOne(kinds: map<string, Kind>, conf: Config, line: string): Config {
    match Meaning(kinds, line)
    case None => conf
    case Some(x) => if x.name in conf then conf else conf[x.name := x.value]
  }

  function ReadAll(kinds: map<string, Kind>, conf: Config, text: string): Config
    decreases |text|
  {
    if text == "" then conf
    else
      var n := LineLength(text);
      ReadAll(kinds, ReadOne(kinds, conf, text[..n]), text[n..])
  }

  method ReadConfig(kinds: map<string, Kind>, text: string) returns (conf: Config)
    ensures conf == ReadAll(kinds, map[], text)
  {
    var rest := text;
    conf := map[];
    while rest != ""
      invariant ReadAll(kinds, conf, rest) == ReadAll(kinds, map[], text)
      decreases |rest|
    {
      var n := LineLength(rest);
      conf, rest := ReadOne(kinds, conf, rest[..n]), rest[n..];
    }
  }

  // ----- line by line -----

  predicate Ended(a: string) { a == "" || a[|a| - 1] == '\n' }

  lemma LineLengthWithin(a: string, b: string)
    requires a != "" && Ended(a)
    ensures LineLength(a + b) == LineLength(a) && (a + b)[..LineLength(a)] == a[..LineLength(a)]
  {
    var i := Index(a, '\n');
    assert a[|a| - 1] == '\n';
    assert (a + b)[i] == '\n' && forall k :: 0 <= k < i ==> (a + b)[k] == a[k];
  }

  /** What ends with the end of a line is read before what follows it. */
  lemma {:induction false} ReadParts(kinds: map<string, Kind>, conf: Config, a: string, b: string)
    requires Ended(a)
    ensures ReadAll(kinds, conf, a + b) == ReadAll(kinds, ReadAll(kinds, conf, a), b)
    decreases |a|
  {
    if a == "" {
      assert a + b == b;
    } else {
      LineLengthWithin(a, b);
      var n := LineLength(a);
      assert (a + b)[n..] == a[n..] + b;
      ReadParts(kinds, ReadOne(kinds, conf, a[..n]), a[n..], b);
    }
  }

  lemma {:induction false} WrittenEnded(xs: seq<Setting>)
    ensures Ended(Written(xs))
  {
    if xs != [] {
      var w := WrittenLine(xs[|xs| - 1]);
      assert w[|w| - 1] == '\n';
    }
  }

  /** A setting keeps the first value it is given. */
  lemma {:induction false} ReadKeeps(kinds: map<string, Kind>, conf: Config, text: string, name: string)
    requires name in conf
    ensures name in ReadAll(kinds, conf, text) && ReadAll(kinds, conf, text)[name] == conf[name]
    decreases |text|
  {
    if text != "" {
      var n := LineLength(text);
      ReadKeeps(kinds, ReadOne(kinds, conf, text[..n]), text[n..], name);
    }
  }

  // ----- which settings a line can carry -----

  /** The line of a setting has room in the buffer, and begins with a capital letter unless it is the
      comment of a setting that is n. */
  predicate Carried(name: string, value: Value) {
    match value
    case Truth(t) => if t == 0 then |name| + 13 <= BUFFER else name != "" && Capital(name[0]) && |name| + 2 <= BUFFER
    case Str(s) => Fits(name, s)
  }

  lemma {:induction false} ParsedShorter(t: string)
    ensures Parsed(t).Some? ==> |Escaped(Parsed(t).value)| < |t| && forall c :: c in Parsed(t).value ==> c in t
    decreases |t|
  {
    if t != "" && t[0] != '"' && !(t[0] == '\\' && |t| == 1) {
      var n := if t[0] == '\\' then 2 else 1;
      ParsedShorter(t[n..]);
      if Parsed(t).Some? {
        var u := Parsed(t[n..]).value;
        assert Parsed(t).value == [t[n - 1]] + u && Parsed(t).value[1..] == u;
      }
    }
  }

  lemma ValuePartOf(p: string)
    ensures |ValuePart(p)| <= |p| && '\n' !in ValuePart(p) && forall c :: c in ValuePart(p) ==> c in p
  {}

  /** Whatever the text, a line that sets a symbol to anything but n sets it to a value that the writer
      could have put in one line. */
  lemma MeaningCarried(kinds: map<string, Kind>, line: string)
    requires |line| <= BUFFER
    ensures var r := Meaning(kinds, line);
            r.Some? && r.value.value != Truth(0) ==> Carried(r.value.name, r.value.value)
  {
    var r := Meaning(kinds, line);
    if r.Some? && r.value.value != Truth(0) {
      var e := Index(line, '=');
      var p := ValuePart(line[e + 1..]);
      ValuePartOf(line[e + 1..]);
      assert r.value.name == line[..e] && e + 1 + |p| <= |line|;
      if r.value.value.Str? { ParsedShorter(p[1..]); }
    }
  }

  predicate AllCarried(conf: Config) {
    forall name :: name in conf && conf[name] != Truth(0) ==> Carried(name, conf[name])
  }

  lemma {:induction false} ReadCarried(kinds: map<string, Kind>, conf: Config, text: string)
    requires AllCarried(conf)
    ensures AllCarried(ReadAll(kinds, conf, text))
    decreases |text|
  {
    if text != "" {
      var n := LineLength(text);
      MeaningCarried(kinds, text[..n]);
      ReadCarried(kinds, ReadOne(kinds, conf, text[..n]), text[n..]);
    }
  }

  // ----- one written line -----

  ghost predicate WellKinded(kinds: map<string, Kind>, x: Setting) {
    IsName(x.name) && x.name in kinds && OfKind(x.value, kinds[x.name])
  }

  /** A line that has room is read in one piece; if only its end has no room, that is read next and
      says nothing. */
  lemma ReadLineOf(kinds: map<string, Kind>, conf: Config, b: string)
    requires 0 < |b| <= BUFFER && '\n' !in b
    ensures ReadAll(kinds, conf, b + ['\n']) ==
            ReadOne(kinds, conf, if |b| < BUFFER then b + ['\n'] else b)
  {
    var text := b + ['\n'];
    FirstIndex(b, '\n', "");
    assert text + "" == text;
    var n := LineLength(text);
    var next := ReadOne(kinds, conf, text[..n]);
    if |b| < BUFFER {
      assert n == |text| && text[..n] == text && text[n..] == "";
    } else {
      assert n == |b| && text[..n] == b && text[n..] == ['\n'];
      var e := ['\n'];
      assert LineLength(e) == 1 && e[..1] == e && e[1..] == "";
      assert ReadOne(kinds, next, e) == next;
      assert ReadAll(kinds, next, e) == ReadAll(kinds, next, "");
    }
  }

  lemma LineMeans(kinds: map<string, Kind>, conf: Config, b: string, x: Setting)
    requires 0 < |b| <= BUFFER && '\n' !in b && x.name !in conf
    requires Meaning(kinds, b) == Some(x) && Meaning(kinds, b + ['\n']) == Some(x)
    ensures ReadAll(kinds, conf, b + ['\n']) == conf[x.name := x.value]
  {
    ReadLineOf(kinds, conf, b);
  }

  /** The end of the line is not part of the value. */
  lemma WholeValue(v: string)
    requires '\n' !in v
    ensures ValuePart(v + ['\n']) <= v
    ensures v != "" && v[|v| - 1] != '\r' ==> ValuePart(v) == v && ValuePart(v + ['\n']) == v
  {
    CutValue(v, |v|);
    CutValue(v, |v| + 1);
    assert (v + ['\n'])[..|v|] == v && (v + ['\n'])[..|v| + 1] == v + ['\n'];
  }

  lemma AssignmentMeans(kinds: map<string, Kind>, name: string, u: string)
    requires IsName(name) && Capital(name[0]) && name in kinds
    ensures var r := Decoded(kinds[name], ValuePart(u));
            Meaning(kinds, name + ['='] + u) == if r == None then None else Some(Setting(name, r.value))
  {
    assert '=' !in name;
    AssignmentOf(name, u);
    assert (name + ['='] + u)[0] == name[0];
  }

  /** The two forms in which an assignment may be read, without and with the end of the line. */
  lemma AssignmentForms(kinds: map<string, Kind>, name: string, v: string, value: Value)
    requires IsName(name) && Capital(name[0]) && v != "" && v[|v| - 1] != '\r' && '\n' !in v
    requires name in kinds && Decoded(kinds[name], v) == Some(value)
    ensures Meaning(kinds, name + ['='] + v) == Some(Setting(name, value))
    ensures Meaning(kinds, name + ['='] + v + ['\n']) == Some(Setting(name, value))
  {
    WholeValue(v);
    AssignmentMeans(kinds, name, v);
    AssignmentMeans(kinds, name, v + ['\n']);
    assert name + ['='] + (v + ['\n']) == name + ['='] + v + ['\n'];
  }

  lemma NoBreakInAssignment(name: string, v: string)
    requires IsName(name) && '\n' !in v
    ensures '\n' !in name + ['='] + v
  {
    assert '\n' !in name;
  }

  /** An assignment with room for it means what it says. */
  lemma AssignmentRead(kinds: map<string, Kind>, conf: Config, name: string, v: string, value: Value)
    requires IsName(name) && Capital(name[0]) && v != "" && v[|v| - 1] != '\r' && '\n' !in v
    requires |name| + 1 + |v| <= BUFFER && name in kinds && name !in conf && Decoded(kinds[name], v) == Some(value)
    ensures ReadAll(kinds, conf, name + ['='] + v + ['\n']) == conf[name := value]
  {
    AssignmentForms(kinds, name, v, value);
    NoBreakInAssignment(name, v);
    LineMeans(kinds, conf, name + ['='] + v, Setting(name, value));
  }

  /** A comment line is understood if it is whole. */
  lemma NotSetOf(name: string, tail: string)
    requires IsName(name) && NOT_SET <= tail
    ensures NotSet(['#', ' '] + name + [' '] + tail) == Some(name)
  {
    var line := ['#', ' '] + name + [' '] + tail;
    var r := name + [' '] + tail;
    assert line[2..] == r;
    assert ' ' !in name;
    FirstIndex(name, ' ', tail);
    assert r[..|name|] == name && r[|name| + 1..] == tail;
  }

  lemma CommentShape(name: string)
    requires IsName(name)
    ensures var b := Comment(name);
            |b| == |name| + 13 && '\n' !in b && b[0] == '#' && forall k :: 2 <= k < |b| ==> b[k] != '=' && b[k] != '#'
  {
    assert NOT_SET == "is not set";
  }

  lemma CommentRead(kinds: map<string, Kind>, conf: Config, name: string)
    requires IsName(name) && |name| + 13 <= BUFFER && name in kinds && kinds[name] != Text && name !in conf
    ensures ReadAll(kinds, conf, Comment(name) + ['\n']) == conf[name := Truth(0)]
  {
    CommentShape(name);
    NotSetOf(name, NOT_SET);
    NotSetOf(name, NOT_SET + ['\n']);
    assert ['#', ' '] + name + [' '] + (NOT_SET + ['\n']) == Comment(name) + ['\n'];
    LineMeans(kinds, conf, Comment(name), Setting(name, Truth(0)));
  }

  /** A comment line that is cut off says nothing. */
  lemma CommentCut(name: string, n: nat)
    requires IsName(name) && n < |name| + 13
    ensures |Comment(name)| == |name| + 13 && NotSet((Comment(name) + ['\n'])[..n]) == None
  {
    CommentShape(name);
    var t := (Comment(name) + ['\n'])[..n];
    if n > 2 {
      var r := t[2..];
      assert forall k :: 0 <= k < |name| && k < |r| ==> r[k] == name[k];
      var k := Index(r, ' ');
      if k < |r| {
        assert ' ' !in name;
        assert k >= |name|;
        assert |r[k + 1..]| < 10;
      }
    }
  }

  lemma {:induction false} NothingSaid(kinds: map<string, Kind>, conf: Config, text: string)
    requires '=' !in text && '#' !in text
    ensures ReadAll(kinds, conf, text) == conf
    decreases |text|
  {
    if text != "" {
      var n := LineLength(text);
      assert Meaning(kinds, text[..n]) == None;
      NothingSaid(kinds, conf, text[n..]);
    }
  }

  lemma CommentLost(kinds: map<string, Kind>, conf: Config, name: string)
    requires IsName(name) && |name| + 13 > BUFFER
    ensures ReadAll(kinds, conf, Comment(name) + ['\n']) == conf
  {
    CommentShape(name);
    CommentCut(name, BUFFER);
    CutSaysNothing(kinds, conf, Comment(name));
  }

  lemma CutSaysNothing(kinds: map<string, Kind>, conf: Config, b: string)
    requires |b| > BUFFER && '\n' !in b && b[0] == '#' && NotSet((b + ['\n'])[..BUFFER]) == None
    requires forall k :: 2 <= k < |b| ==> b[k] != '=' && b[k] != '#'
    ensures ReadAll(kinds, conf, b + ['\n']) == conf
  {
    var text := b + ['\n'];
    FirstIndex(b, '\n', "");
    assert text + "" == text;
    assert LineLength(text) == BUFFER && text[..BUFFER][0] == '#';
    NothingSaid(kinds, conf, text[BUFFER..]);
  }

  /** A line that has room sets its own symbol and nothing else; the comment of a setting that has no
      room sets nothing. */
  lemma LineRead(kinds: map<string, Kind>, conf: Config, x: Setting)
    requires WellKinded(kinds, x) && x.name !in conf && (x.value == Truth(0) || Carried(x.name, x.value))
    ensures ReadAll(kinds, conf, WrittenLine(x)) ==
            if Carried(x.name, x.value) then conf[x.name := x.value] else conf
  {
    match x.value
    case Truth(t) =>
      if t != 0 {
        TruthRead(kinds, conf, x.name, t);
      } else if Carried(x.name, x.value) {
        CommentRead(kinds, conf, x.name);
      } else {
        CommentLost(kinds, conf, x.name);
      }
    case Str(s) => StringRead(kinds, conf, x.name, s);
  }

  lemma TruthRead(kinds: map<string, Kind>, conf: Config, name: string, t: Tri)
    requires IsName(name) && Capital(name[0]) && |name| + 2 <= BUFFER && name in kinds && name !in conf
    requires t != 0 && OfKind(Truth(t), kinds[name])
    ensures ReadAll(kinds, conf, name + ['='] + [Letter(t)] + ['\n']) == conf[name := Truth(t)]
  {
    AssignmentRead(kinds, conf, name, [Letter(t)], Truth(t));
  }

  lemma StringRead(kinds: map<string, Kind>, conf: Config, name: string, s: string)
    requires IsName(name) && name in kinds && kinds[name] == Text && name !in conf && Fits(name, s)
    ensures ReadAll(kinds, conf, Line(name, Quoted(s), "")) == conf[name := Str(s)]
  {
    NoBreak(s);
    ParsedQuoted(s);
    AssignmentRead(kinds, conf, name, Quoted(s), Str(s));
    assert Line(name, Quoted(s), "") == name + ['='] + Quoted(s) + ['\n'];
  }

  // ----- the whole file -----

  /** The settings as written, each name once. */
  ghost predicate WellFormed(kinds: map<string, Kind>, xs: seq<Setting>) {
    (forall i :: 0 <= i < |xs| ==> WellKinded(kinds, xs[i])) &&
    (forall i, j :: 0 <= i < j < |xs| ==> xs[i].name != xs[j].name)
  }

  function Settings(xs: seq<Setting>): Config {
    if xs == [] then map[]
    else
      var x := xs[|xs| - 1];
      Settings(xs[..|xs| - 1])[x.name := x.value]
  }

  /** Those of the settings that a line can carry. */
  function CarriedSettings(xs: seq<Setting>): Config {
    if xs == [] then map[]
    else
      var x := xs[|xs| - 1];
      var before := CarriedSettings(xs[..|xs| - 1]);
      if Carried(x.name, x.value) then before[x.name := x.value] else before
  }

  lemma {:induction false} SettingsAre(xs: seq<Setting>)
    requires forall i, j :: 0 <= i < j < |xs| ==> xs[i].name != xs[j].name
    ensures forall i :: 0 <= i < |xs| ==> xs[i].name in Settings(xs) && Settings(xs)[xs[i].name] == xs[i].value
    ensures forall i :: 0 <= i < |xs| ==> (xs[i].name in CarriedSettings(xs) <==> Carried(xs[i].name, xs[i].value))
    ensures forall name :: name in CarriedSettings(xs) ==> exists i :: 0 <= i < |xs| && xs[i].name == name
  {
    if xs != [] {
      var ys := xs[..|xs| - 1];
      SettingsAre(ys);
      forall name | name in CarriedSettings(ys) ensures exists i :: 0 <= i < |xs| && xs[i].name == name {
        var i :| 0 <= i < |ys| && ys[i].name == name;
        assert xs[i].name == name;
      }
    }
  }

  lemma {:induction false} SameSettings(xs: seq<Setting>)
    requires forall i :: 0 <= i < |xs| ==> Carried(xs[i].name, xs[i].value)
    ensures CarriedSettings(xs) == Settings(xs)
  {
    if xs != [] { SameSettings(xs[..|xs| - 1]); }
  }

  /** If every setting other than n has room in a line, what is read is what the lines can carry. */
  lemma {:induction false} ReadWritten(kinds: map<string, Kind>, xs: seq<Setting>)
    requires WellFormed(kinds, xs)
    requires forall i :: 0 <= i < |xs| ==> xs[i].value == Truth(0) || Carried(xs[i].name, xs[i].value)
    ensures ReadAll(kinds, map[], Written(xs)) == CarriedSettings(xs)
  {
    if xs != [] {
      var ys, x := xs[..|xs| - 1], xs[|xs| - 1];
      ReadWritten(kinds, ys);
      WrittenEnded(ys);
      ReadParts(kinds, map[], Written(ys), WrittenLine(x));
      SettingsAre(ys);
      assert x.name !in CarriedSettings(ys);
      LineRead(kinds, CarriedSettings(ys), x);
    }
  }

  /** A file is read back exactly when every setting in it fits in a line: no name but that of a setting
      that is n begins with anything but a capital letter, no string has a line break, and no line is
      too long. */
  lemma FileRoundTrip(kinds: map<string, Kind>, xs: seq<Setting>)
    requires WellFormed(kinds, xs)
    ensures ReadAll(kinds, map[], Written(xs)) == Settings(xs) <==>
            forall i :: 0 <= i < |xs| ==> Carried(xs[i].name, xs[i].value)
  {
    var conf := ReadAll(kinds, map[], Written(xs));
    SettingsAre(xs);
    ReadCarried(kinds, map[], Written(xs));
    if forall i :: 0 <= i < |xs| ==> Carried(xs[i].name, xs[i].value) {
      ReadWritten(kinds, xs);
      SameSettings(xs);
    } else if conf == Settings(xs) {
      forall i | 0 <= i < |xs| ensures xs[i].value == Truth(0) || Carried(xs[i].name, xs[i].value) {
        assert xs[i].name in conf;
      }
      ReadWritten(kinds, xs);
      assert false;
    }
  }

  /** Settings are undisturbed by whatever follows them: if those up to the k-th fit, they are read back
      whatever the strings after them hold. */
  lemma PrefixKept(kinds: map<string, Kind>, xs: seq<Setting>, tail: string, k: nat)
    requires WellFormed(kinds, xs) && k < |xs|
    requires forall i :: 0 <= i < |xs| ==> Carried(xs[i].name, xs[i].value)
    ensures var conf := ReadAll(kinds, map[], Written(xs) + tail);
            xs[k].name in conf && conf[xs[k].name] == xs[k].value
  {
    WrittenEnded(xs);
    ReadParts(kinds, map[], Written(xs), tail);
    FileRoundTrip(kinds, xs);
    SettingsAre(xs);
    ReadKeeps(kinds, Settings(xs), tail, xs[k].name);
  }

  /** The two lines that are read from a string with a line break. */
  lemma BrokenLines(name: string, a: string, b: string)
    ensures Line(name, Quoted(a + ['\n'] + b), "") ==
            (name + ['='] + (['"'] + Escaped(a)) + ['\n']) + (Escaped(b) + ['"', '\n'])
  {
    EscapedAppend(a + ['\n'], b);
    EscapedAppend(a, ['\n']);
    EscapedPlain(['\n']);
    Regrouped(name + ['='], Escaped(a), Escaped(b));
  }

  lemma Regrouped(n: string, x: string, y: string)
    ensures n + ((['"'] + (x + ['\n'] + y) + ['"']) + ['\n'] + "") == (n + (['"'] + x) + ['\n']) + (y + ['"', '\n'])
  {}

  /** An assignment without effect: its value is none, or its symbol has been set. */
  lemma AssignmentLost(kinds: map<string, Kind>, conf: Config, name: string, v: string)
    requires IsName(name) && '\n' !in v && |name| + 1 + |v| < BUFFER && name in kinds
    requires name in conf || Decoded(kinds[name], ValuePart(v + ['\n'])) == None
    ensures ReadAll(kinds, conf, name + ['='] + v + ['\n']) == conf
  {
    var b := name + ['='] + v;
    NoBreakInAssignment(name, v);
    if Capital(name[0]) { AssignmentMeans(kinds, name, v + ['\n']); }
    assert name + ['='] + (v + ['\n']) == b + ['\n'] && (b + ['\n'])[0] == name[0];
    ReadLineOf(kinds, conf, b);
  }

  lemma BeginningUnread(a: string, w: string)
    requires w <= ['"'] + Escaped(a)
    ensures StringValue(w) == None
  {
    QuotedPrefix(a, |w|);
    assert Quoted(a)[..|w|] == w;
  }

  /** A string that is not closed in its line has no value. */
  lemma UnclosedValue(a: string)
    requires '\n' !in a
    ensures '\n' !in ['"'] + Escaped(a) && StringValue(ValuePart(['"'] + Escaped(a) + ['\n'])) == None
  {
    var v := ['"'] + Escaped(a);
    EscapedKeeps(a, '\n');
    WholeValue(v);
    BeginningUnread(a, ValuePart(v + ['\n']));
  }

  /** What a string with a line break, and an assignment after the break, leaves behind. */
  lemma BreakSets(kinds: map<string, Kind>, name: string, a: string, other: string)
    requires IsName(name) && name in kinds && kinds[name] == Text
    requires IsName(other) && Capital(other[0]) && other in kinds && kinds[other] == Tristate
    requires '\n' !in a && |name| + 2 + |Escaped(a)| < BUFFER && |other| + 3 <= BUFFER
    ensures ReadAll(kinds, map[], Line(name, Quoted(a + ['\n'] + (other + ['=', 'y'])), "")) == map[other := Truth(2)]
  {
    var b, v, w := other + ['=', 'y'], ['"'] + Escaped(a), ['y', '"'];
    BrokenLines(name, a, b);
    PlainTail(other);
    UnclosedValue(a);
    LostThenRead(kinds, name, v, other, w);
  }

  lemma PlainTail(other: string)
    requires IsName(other)
    ensures Escaped(other + ['=', 'y']) + ['"', '\n'] == other + ['='] + ['y', '"'] + ['\n']
  {
    EscapedPlain(other + ['=', 'y']);
  }

  lemma LostThenRead(kinds: map<string, Kind>, name: string, v: string, other: string, w: string)
    requires IsName(name) && '\n' !in v && |name| + 1 + |v| < BUFFER && name in kinds
    requires Decoded(kinds[name], ValuePart(v + ['\n'])) == None
    requires IsName(other) && Capital(other[0]) && w != "" && w[|w| - 1] != '\r' && '\n' !in w
    requires |other| + 1 + |w| <= BUFFER && other in kinds && Decoded(kinds[other], w).Some?
    ensures ReadAll(kinds, map[], (name + ['='] + v + ['\n']) + (other + ['='] + w + ['\n'])) ==
            map[other := Decoded(kinds[other], w).value]
  {
    ReadParts(kinds, map[], name + ['='] + v + ['\n'], other + ['='] + w + ['\n']);
    AssignmentLost(kinds, map[], name, v);
    AssignmentRead(kinds, map[], other, w, Decoded(kinds[other], w).value);
  }

  lemma WrittenTwo(x: Setting, y: Setting)
    ensures Written([x, y]) == WrittenLine(x) + WrittenLine(y) && Ended(WrittenLine(x))
  {
    assert [x, y][..1] == [x] && [x][..0] == [];
    assert Written([x]) == "" + WrittenLine(x);
    WrittenEnded([x]);
  }

  /** A string with a line break can set what comes after it: OTHER, written as m, is read as y, and the
      string itself is lost. */
  lemma BreakSetsOther(kinds: map<string, Kind>, name: string, a: string, other: string)
    requires IsName(name) && name in kinds && kinds[name] == Text && name != other
    requires IsName(other) && Capital(other[0]) && other in kinds && kinds[other] == Tristate
    requires '\n' !in a && |name| + 2 + |Escaped(a)| < BUFFER && |other| + 3 <= BUFFER
    ensures var xs := [Setting(name, Str(a + ['\n'] + (other + ['=', 'y']))), Setting(other, Truth(1))];
            WellFormed(kinds, xs) && ReadAll(kinds, map[], Written(xs)) == map[other := Truth(2)]
  {
    var x, y := Setting(name, Str(a + ['\n'] + (other + ['=', 'y']))), Setting(other, Truth(1));
    BreakSets(kinds, name, a, other);
    TwoRead(kinds, x, y, map[other := Truth(2)]);
  }

  lemma TwoRead(kinds: map<string, Kind>, x: Setting, y: Setting, conf: Config)
    requires ReadAll(kinds, map[], WrittenLine(x)) == conf && y.value == Truth(1)
    requires IsName(y.name) && |y.name| + 3 <= BUFFER && y.name in kinds && y.name in conf
    ensures ReadAll(kinds, map[], Written([x, y])) == conf
  {
    WrittenTwo(x, y);
    ReadParts(kinds, map[], WrittenLine(x), WrittenLine(y));
    AssignmentLost(kinds, conf, y.name, ['m']);
  }
}
