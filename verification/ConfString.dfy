/** String settings in the configuration file: escaping on writing, unescaping in place on reading.
    Strings are C strings, so the zero character does not occur in them. */
module ConfString {
  import opened Options

  predicate Special(c: char) { c == '"' || c == '\\' }

  // ----- writing -----

  function Escaped(s: string): string {
    if s == "" then "" else (if Special(s[0]) then ['\\', s[0]] else [s[0]]) + Escaped(s[1..])
  }

  lemma {:induction false} EscapedAppend(a: string, b: string)
    ensures Escaped(a + b) == Escaped(a) + Escaped(b)
  {
    if a == "" {
      assert a + b == b;
    } else {
      assert (a + b)[1..] == a[1..] + b;
      EscapedAppend(a[1..], b);
    }
  }

  lemma {:induction false} EscapedPlain(s: string)
    requires forall i :: 0 <= i < |s| ==> !Special(s[i])
    ensures Escaped(s) == s
  {
    if s != "" { EscapedPlain(s[1..]); }
  }

  /** The length of the part of s from i on that needs no escaping. */
  method Span(s: string, i: nat) returns (l: nat)
    requires i <= |s|
    ensures i + l <= |s| && forall k :: i <= k < i + l ==> !Special(s[k])
    ensures i + l < |s| ==> Special(s[i + l])
  {
    l := 0;
    while i + l < |s| && !Special(s[i + l])
      invariant i + l <= |s| && forall k :: i <= k < i + l ==> !Special(s[k])
    {
      l := l + 1;
    }
  }

  function Quoted(s: string): string { ['"'] + Escaped(s) + ['"'] }

  function Line(name: string, value: string, rest: string): string { name + ['='] + (value + ['\n'] + rest) }

  method WriteString(name: string, s: string) returns (out: string)
    ensures out == Line(name, Quoted(s), "")
  {
    var body, i := "", 0;
    while true
      invariant 0 <= i <= |s| && body == Escaped(s[..i])
      decreases |s| - i
    {
      var l := Span(s, i);
      Grow(s, i, i + l);
      EscapedPlain(s[i..i + l]);
      body, i := body + s[i..i + l], i + l;
      if i == |s| { break; }
      Grow(s, i, i + 1);
      EscapedOne(s, i);
      body, i := body + ['\\', s[i]], i + 1;
    }
    assert s[..i] == s;
    out := name + ['='] + (['"'] + body + ['"'] + ['\n'] + "");
  }

  lemma EscapedOne(s: string, i: nat)
    requires i < |s|
    ensures Escaped(s[i..i + 1]) == if Special(s[i]) then ['\\', s[i]] else [s[i]]
  {
    assert s[i..i + 1] == [s[i]] && s[i..i + 1][1..] == "";
  }

  lemma Grow(s: string, i: nat, j: nat)
    requires i <= j <= |s|
    ensures Escaped(s[..j]) == Escaped(s[..i]) + Escaped(s[i..j])
  {
    EscapedAppend(s[..i], s[i..j]);
    assert s[..i] + s[i..j] == s[..j];
  }

  // ----- reading -----

  function Prefixed(c: char, r: Option<string>): Option<string> {
    match r
    case None => None
    case Some(s) => Some([c] + s)
  }

  /** What is between here and the closing quote, with every backslash taken away and the character
      after it kept; nothing if there is no closing quote. */
  function Parsed(t: string): Option<string> {
    if t == "" then None
    else if t[0] == '"' then Some("")
    else if t[0] == '\\' then if |t| == 1 then None else Prefixed(t[1], Parsed(t[2..]))
    else Prefixed(t[0], Parsed(t[1..]))
  }

  function Appended(a: string, r: Option<string>): Option<string> {
    match r
    case None => None
    case Some(s) => Some(a + s)
  }

  lemma PrefixAppend(a: string, r: Option<string>)
    requires a != ""
    ensures Prefixed(a[0], Appended(a[1..], r)) == Appended(a, r)
  {
    if r.Some? { assert [a[0]] + (a[1..] + r.value) == a + r.value; }
  }

  lemma AppendNothing(t: string)
    ensures Appended("", Parsed(t)) == Parsed(t)
  {
    if Parsed(t).Some? { assert "" + Parsed(t).value == Parsed(t).value; }
  }

  lemma {:induction false} ParsedPlain(a: string, t: string)
    requires forall i :: 0 <= i < |a| ==> !Special(a[i])
    ensures Parsed(a + t) == Appended(a, Parsed(t))
  {
    if a == "" {
      assert a + t == t;
      AppendNothing(t);
    } else {
      assert (a + t)[1..] == a[1..] + t;
      ParsedPlain(a[1..], t);
      PrefixAppend(a, Parsed(t));
    }
  }

  /** Takes backslashes out of the buffer one by one, moving the rest of the line up each time. */
  method ReadString(line: string) returns (r: Option<string>)
    ensures r == Parsed(line)
  {
    var t, p := line, 0;
    AppendNothing(line);
    assert line[..0] == "" && line[0..] == line;
    while true
      invariant p <= |t| && Parsed(line) == Appended(t[..p], Parsed(t[p..]))
      decreases |t| - p
    {
      var l := Span(t, p);
      var q := p + l;
      ParsedPlain(t[p..q], t[q..]);
      assert t[p..q] + t[q..] == t[p..] && t[..p] + t[p..q] == t[..q];
      AppendedTwice(t[..p], t[p..q], Parsed(t[q..]));
      if q == |t| { return None; }
      if t[q] == '"' {
        assert t[..q] + "" == t[..q];
        return Some(t[..q]);
      }
      if q + 1 == |t| { return None; }
      var moved := t[..q] + t[q + 1..];
      assert moved[..q + 1] == t[..q] + [t[q + 1]] && moved[q + 1..] == t[q..][2..];
      PrefixedAppended(t[..q], t[q + 1], Parsed(t[q..][2..]));
      t, p := moved, q + 1;
    }
  }

  lemma AppendedTwice(a: string, b: string, r: Option<string>)
    ensures Appended(a, Appended(b, r)) == Appended(a + b, r)
  {
    if r.Some? { assert a + (b + r.value) == (a + b) + r.value; }
  }

  lemma PrefixedAppended(a: string, c: char, r: Option<string>)
    ensures Appended(a, Prefixed(c, r)) == Appended(a + [c], r)
  {
    if r.Some? { assert a + ([c] + r.value) == (a + [c]) + r.value; }
  }

  // ----- a written line is read back -----

  lemma {:induction false} ParsedEscaped(s: string, t: string)
    ensures Parsed(Escaped(s) + t) == Appended(s, Parsed(t))
  {
    if s == "" {
      assert Escaped(s) + t == t;
      AppendNothing(t);
    } else {
      ParsedEscaped(s[1..], t);
      PrefixAppend(s, Parsed(t));
      if Special(s[0]) { EscapedHead(s, t); } else { PlainHead(s, t); }
    }
  }

  lemma EscapedHead(s: string, t: string)
    requires s != "" && Special(s[0])
    ensures Parsed(Escaped(s) + t) == Prefixed(s[0], Parsed(Escaped(s[1..]) + t))
  {
    assert Escaped(s) + t == ['\\', s[0]] + (Escaped(s[1..]) + t);
    assert (['\\', s[0]] + (Escaped(s[1..]) + t))[2..] == Escaped(s[1..]) + t;
  }

  lemma PlainHead(s: string, t: string)
    requires s != "" && !Special(s[0])
    ensures Parsed(Escaped(s) + t) == Prefixed(s[0], Parsed(Escaped(s[1..]) + t))
  {
    assert Escaped(s) + t == [s[0]] + (Escaped(s[1..]) + t);
    assert ([s[0]] + (Escaped(s[1..]) + t))[1..] == Escaped(s[1..]) + t;
  }

  /** Nothing is read from the beginning of an escaped string: no quote in it closes it. */
  lemma {:induction false} ParsedCut(s: string, k: nat)
    requires k <= |Escaped(s)|
    ensures Parsed(Escaped(s)[..k]) == None
  {
    if s != "" {
      var n, t := if Special(s[0]) then 2 else 1, Escaped(s)[..k];
      if k >= n {
        ParsedCut(s[1..], k - n);
        assert t[n..] == Escaped(s[1..])[..k - n];
      }
    }
  }

  lemma ParsedQuoted(s: string)
    ensures Parsed(Quoted(s)[1..]) == Some(s)
  {
    ParsedEscaped(s, ['"']);
    assert Quoted(s)[1..] == Escaped(s) + ['"'] && s + "" == s;
  }

  /** The place of the first c in s, or the length of s. */
  function Index(s: string, c: char): (i: nat)
    ensures i <= |s| && (i < |s| ==> s[i] == c) && forall k :: 0 <= k < i ==> s[k] != c
  {
    if s == "" then 0
    else if s[0] == c then 0
    else
      var i := Index(s[1..], c);
      assert forall k :: 0 < k <= i ==> s[k] == s[1..][k - 1] || k == |s|;
      i + 1
  }

  /** How much of the text one call of fgets delivers into a buffer of 1024 characters: up to and with
      the end of the line, but no more than 1023. */
  const BUFFER: nat := 1023

  function LineLength(text: string): (n: nat)
    requires text != ""
    ensures 0 < n <= |text| && n <= BUFFER
  {
    var i := Index(text, '\n');
    var n := if i < |text| then i + 1 else i;
    if n < BUFFER then n else BUFFER
  }

  predicate Capital(c: char) { 'A' <= c <= 'Z' }

  /** Up to the end of the line, if there is one, and without a carriage return before it. */
  function ValuePart(p: string): string {
    var n := Index(p, '\n');
    if n < |p| && n > 0 && p[n - 1] == '\r' then p[..n - 1] else p[..n]
  }

  /** Name and value of an assignment: it begins with a capital letter and has an equals sign. */
  function Assignment(line: string): Option<(string, string)> {
    if line == "" || !Capital(line[0]) then None
    else
      var e := Index(line, '=');
      if e == |line| then None else Some((line[..e], ValuePart(line[e + 1..])))
  }

  function StringValue(p: string): Option<string> {
    if p == "" || p[0] != '"' then None else Parsed(p[1..])
  }

  /** What the first line read from the text says about a string setting. */
  function ReadLine(text: string): Option<string> {
    if text == "" then None
    else
      match Assignment(text[..LineLength(text)])
      case None => None
      case Some((_, p)) => StringValue(p)
  }

  lemma {:induction false} EscapedKeeps(s: string, c: char)
    requires !Special(c)
    ensures c in Escaped(s) <==> c in s
  {
    if s != "" {
      EscapedKeeps(s[1..], c);
      assert c in s <==> c == s[0] || c in s[1..];
    }
  }

  lemma FirstIndex(a: string, c: char, b: string)
    requires c !in a
    ensures Index(a + [c] + b, c) == |a|
  {
    var s := a + [c] + b;
    assert s[|a|] == c;
    assert forall k :: 0 <= k < |a| ==> s[k] == a[k];
  }

  /** The name and the quoted string fit in one line, and the name is one the reader looks at. */
  predicate Fits(name: string, s: string) {
    name != "" && Capital(name[0]) && '\n' !in s && |name| + 1 + |Quoted(s)| <= BUFFER
  }

  /** Of a quoted string only the whole reads as the string. */
  lemma QuotedPrefix(s: string, k: nat)
    requires k <= |Quoted(s)|
    ensures StringValue(Quoted(s)[..k]) == if k == |Quoted(s)| then Some(s) else None
  {
    if k == |Quoted(s)| {
      ParsedQuoted(s);
      assert Quoted(s)[..k] == Quoted(s);
    } else if k > 0 {
      ParsedCut(s, k - 1);
      assert Quoted(s)[..k][1..] == Escaped(s)[..k - 1];
    }
  }

  lemma NoBreak(s: string)
    ensures '\n' in Quoted(s) <==> '\n' in s
  {
    EscapedKeeps(s, '\n');
  }

  /** A value cut off somewhere, and then at the end of the line, is a beginning of the value. */
  lemma CutValue(v: string, m: nat)
    requires m <= |v| + 1
    ensures var w := ValuePart((v + ['\n'])[..m]);
            w <= v && (v != "" && v[|v| - 1] != '\r' ==> (w == v <==> '\n' !in v && m >= |v|))
  {
    var p := (v + ['\n'])[..m];
    var n := Index(p, '\n');
    assert forall i :: 0 <= i < m && i < |v| ==> p[i] == v[i];
    assert m > |v| ==> p[|v|] == '\n';
    if n < |v| {
      assert p[..n] == v[..n];
      assert n < |p| ==> v[n] == '\n';
      assert n == |p| ==> m < |v|;
    } else {
      assert n == |v| && p[..n] == v;
      if v != "" { assert p[..n - 1] == v[..n - 1]; }
    }
  }

  lemma AssignmentOf(name: string, u: string)
    requires name != "" && Capital(name[0]) && '=' !in name
    ensures Assignment(name + ['='] + u) == Some((name, ValuePart(u)))
  {
    var line := name + ['='] + u;
    FirstIndex(name, '=', u);
    assert line[..|name|] == name && line[|name| + 1..] == u && line[0] == name[0];
  }

  /** The first line read from a written setting: some or all of it, with the end of the line if
      there is room. */
  lemma FirstLine(name: string, v: string, rest: string)
    requires '\n' !in name
    ensures var text, u := Line(name, v, rest), v + ['\n'];
            var len, i := LineLength(text), |name| + 1 + Index(u, '\n');
            len == (if i + 1 < BUFFER then i + 1 else BUFFER) && Index(u, '\n') <= |v| &&
            text[..len] == if len <= |name| then name[..len] else name + ['='] + u[..len - |name| - 1]
  {
    var text, u := Line(name, v, rest), v + ['\n'];
    var i := Index(u, '\n');
    assert u[|v|] == '\n';
    forall k | 0 <= k < |name| + 1 + i ensures text[k] != '\n' {
      if k > |name| { assert text[k] == u[k - |name| - 1]; }
    }
    assert text[|name| + 1 + i] == u[i];
    var len := LineLength(text);
    if len > |name| {
      assert text[..len] == name + ['='] + u[..len - |name| - 1];
    }
  }

  /** What the first line read from a written setting assigns is a beginning of the quoted string, and
      all of it exactly if it fits. */
  lemma AssignsPrefix(name: string, s: string, rest: string)
    requires name != "" && Capital(name[0]) && '=' !in name && '\n' !in name
    ensures var text := Line(name, Quoted(s), rest);
            var r := Assignment(text[..LineLength(text)]);
            if r == None then !Fits(name, s)
            else r.value.0 == name && r.value.1 <= Quoted(s) && (r.value.1 == Quoted(s) <==> Fits(name, s))
  {
    var v := Quoted(s);
    var text, u := Line(name, v, rest), v + ['\n'];
    var len := LineLength(text);
    FirstLine(name, v, rest);
    NoBreak(s);
    if len > |name| {
      AssignmentOf(name, u[..len - |name| - 1]);
      CutValue(v, len - |name| - 1);
      assert v[|v| - 1] == '"';
      Reached(|name|, v, len);
    } else {
      assert '=' !in name[..len];
    }
  }

  lemma Reached(n: nat, v: string, len: nat)
    requires var i := n + 1 + Index(v + ['\n'], '\n'); len == if i + 1 < BUFFER then i + 1 else BUFFER
    requires len > n
    ensures '\n' !in v ==> (len - n - 1 >= |v| <==> n + 1 + |v| <= BUFFER)
  {
    if '\n' !in v { FirstIndex(v, '\n', ""); assert v + ['\n'] + "" == v + ['\n']; }
  }

  /** A string setting is read back exactly when its name begins with a capital letter, the string has
      no line break in it, and both fit in the buffer together; otherwise nothing is read. */
  lemma RoundTrip(name: string, s: string, rest: string)
    requires '=' !in name && '\n' !in name
    ensures ReadLine(Line(name, Quoted(s), rest)) == if Fits(name, s) then Some(s) else None
  {
    var text := Line(name, Quoted(s), rest);
    if name != "" && Capital(name[0]) {
      AssignsPrefix(name, s, rest);
      var r := Assignment(text[..LineLength(text)]);
      if r != None {
        QuotedPrefix(s, |r.value.1|);
        assert Quoted(s)[..|r.value.1|] == r.value.1;
      }
    } else {
      assert text[0] == if name == "" then '=' else name[0];
    }
  }

  lemma {:induction false} EscapedLonger(s: string)
    ensures |s| <= |Escaped(s)|
  {
    if s != "" { EscapedLonger(s[1..]); }
  }

  /** A string longer than the buffer is lost, whatever its characters. */
  lemma OverlongLost(name: string, s: string)
    requires '=' !in name && '\n' !in name && |s| >= BUFFER
    ensures ReadLine(Line(name, Quoted(s), "")) == None
  {
    EscapedLonger(s);
    RoundTrip(name, s, "");
  }
}
