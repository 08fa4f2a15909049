/** The kernel names of factor groups: what the lowering prints and what the trace checker reads
    back from the template arguments. */
module KernelName {

  const MARKER: string := "factor_streamed::kernel<"

  // ---------------------------------------------------------------- numbers

  predicate IsDigit(c: char) {
    '0' <= c <= '9'
  }

  function DigitChar(d: nat): char
    requires d < 10
  {
    '0' + d as char
  }

  function DigitValue(c: char): nat
    requires IsDigit(c)
  {
    c as int - '0' as int
  }

  /** Decimal notation. */
  function Print(n: nat): string {
    if n < 10 then [DigitChar(n)] else Print(n / 10) + [DigitChar(n % 10)]
  }

  ghost predicate AllDigits(s: string) {
    forall i | 0 <= i < |s| :: IsDigit(s[i])
  }

  function ParseNat(s: string): nat
    requires forall i | 0 <= i < |s| :: IsDigit(s[i])
  {
    if s == [] then 0 else 10 * ParseNat(s[..|s| - 1]) + DigitValue(s[|s| - 1])
  }

  lemma {:induction false} PrintParses(n: nat)
    ensures Print(n) != [] && AllDigits(Print(n)) && ParseNat(Print(n)) == n
  {
    if n >= 10 {
      PrintParses(n / 10);
      assert Print(n)[..|Print(n)| - 1] == Print(n / 10);
    }
  }

  datatype Number = Missing | Number(value: nat)

  /** The leading run of digits. */
  function DigitRun(s: string): (r: string)
    ensures forall i | 0 <= i < |r| :: IsDigit(r[i])
  {
    if s == [] || !IsDigit(s[0]) then [] else [s[0]] + DigitRun(s[1..])
  }

  /** re.search(r"\d+", s) read as a number. */
  function FirstNumber(s: string): Number {
    if s == [] then Missing
    else if IsDigit(s[0]) then Number(ParseNat(DigitRun(s)))
    else FirstNumber(s[1..])
  }

  lemma {:induction false} RunOfDigits(s: string, post: string)
    requires AllDigits(s) && (post != [] ==> !IsDigit(post[0]))
    ensures DigitRun(s + post) == s
  {
    if s == [] {
      assert s + post == post;
    } else {
      assert (s + post)[1..] == s[1..] + post;
      RunOfDigits(s[1..], post);
    }
  }

  ghost predicate NoDigits(s: string) {
    forall i | 0 <= i < |s| :: !IsDigit(s[i])
  }

  /** The number is found whatever non-digits stand around it. */
  lemma {:induction false} FirstNumberAround(pre: string, n: nat, post: string)
    requires NoDigits(pre) && (post != [] ==> !IsDigit(post[0]))
    ensures FirstNumber(pre + (Print(n) + post)) == Number(n)
  {
    if pre == [] {
      PrintParses(n);
      RunOfDigits(Print(n), post);
      assert pre + (Print(n) + post) == Print(n) + post;
    } else {
      assert (pre + (Print(n) + post))[1..] == pre[1..] + (Print(n) + post);
      FirstNumberAround(pre[1..], n, post);
    }
  }

  lemma FirstNumberOfPrint(n: nat)
    ensures FirstNumber(Print(n)) == Number(n)
  {
    FirstNumberAround("", n, "");
    assert "" + (Print(n) + "") == Print(n);
  }

  // -------------------------------------------------------------- whitespace

  /** What str.strip() removes. */
  predicate IsSpace(c: char) {
    var u := c as int;
    || 9 <= u <= 13 || 28 <= u <= 32 || u == 0x85 || u == 0xA0 || u == 0x1680
    || 0x2000 <= u <= 0x200A || u == 0x2028 || u == 0x2029 || u == 0x202F || u == 0x205F || u == 0x3000
  }

  function StripStart(s: string): string {
    if s == [] || !IsSpace(s[0]) then s else StripStart(s[1..])
  }

  function StripEnd(s: string): string {
    if s == [] || !IsSpace(s[|s| - 1]) then s else StripEnd(s[..|s| - 1])
  }

  function Strip(s: string): string {
    StripEnd(StripStart(s))
  }

  lemma {:induction false} StripStartKeepsNumber(s: string)
    ensures FirstNumber(StripStart(s)) == FirstNumber(s)
  {
    if s != [] && IsSpace(s[0]) {
      StripStartKeepsNumber(s[1..]);
    }
  }

  lemma {:induction false} DigitRunAppend(s: string, c: char)
    requires !IsDigit(c)
    ensures DigitRun(s + [c]) == DigitRun(s)
  {
    if s != [] {
      assert (s + [c])[1..] == s[1..] + [c];
      DigitRunAppend(s[1..], c);
    }
  }

  lemma {:induction false} FirstNumberAppend(s: string, c: char)
    requires !IsDigit(c)
    ensures FirstNumber(s + [c]) == FirstNumber(s)
  {
    if s == [] {
      assert FirstNumber([c]) == FirstNumber([c][1..]);
    } else {
      assert (s + [c])[1..] == s[1..] + [c];
      DigitRunAppend(s, c);
      FirstNumberAppend(s[1..], c);
    }
  }

  lemma {:induction false} StripEndKeepsNumber(s: string)
    ensures FirstNumber(StripEnd(s)) == FirstNumber(s)
  {
    if s != [] && IsSpace(s[|s| - 1]) {
      var init := s[..|s| - 1];
      StripEndKeepsNumber(init);
      FirstNumberAppend(init, s[|s| - 1]);
      assert s == init + [s[|s| - 1]];
    }
  }

  lemma StripKeepsNumber(s: string)
    ensures FirstNumber(Strip(s)) == FirstNumber(s)
  {
    StripStartKeepsNumber(s);
    StripEndKeepsNumber(StripStart(s));
  }

  // -------------------------------------------------------------- arguments

  /** The scan over the text after the marker: it splits at top-level commas and ends at the
      bracket that closes the argument list. A list that never closes keeps only the
      arguments completed by a comma. */
  function Scan(text: string, depth: nat, token: string, arguments: seq<string>): seq<string> {
    if text == [] then arguments
    else if text[0] == '>' && depth == 0 then arguments + [Strip(token)]
    else if text[0] == ',' && depth == 0 then Scan(text[1..], 0, "", arguments + [Strip(token)])
    else
      var next := if text[0] == '<' then depth + 1 else if text[0] == '>' then depth - 1 else depth;
      Scan(text[1..], next, token + [text[0]], arguments)
  }

  predicate OccursAt(name: string, i: nat) {
    i + |MARKER| <= |name| && name[i..i + |MARKER|] == MARKER
  }

  function FindMarker(name: string, from: nat): (i: nat)
    requires from <= |name|
    ensures from <= i <= |name| && (i < |name| ==> OccursAt(name, i))
    ensures forall k: nat | from <= k < i :: !OccursAt(name, k)
    decreases |name| - from
  {
    if from == |name| || OccursAt(name, from) then from else FindMarker(name, from + 1)
  }

  /** The three outcomes of reading a name: no factor kernel, an exception, the parameters. */
  datatype Parameters = NotAFactor | Malformed | Parameters(total: nat, log: nat, done: nat)

  function Interpret(arguments: seq<string>): Parameters {
    if |arguments| < 9 then Malformed
    else
      var a, b, c := FirstNumber(arguments[1]), FirstNumber(arguments[2]), FirstNumber(arguments[3]);
      if a.Missing? || b.Missing? || c.Missing? then Malformed else Parameters(a.value, b.value, c.value)
  }

  function Read(name: string): Parameters {
    var i := FindMarker(name, 0);
    if i == |name| then NotAFactor else Interpret(Scan(name[i + |MARKER|..], 0, "", []))
  }

  method FactorParameters(name: string) returns (r: Parameters)
    ensures r == Read(name)
  {
    var at := FindMarker(name, 0);
    if at == |name| {
      return NotAFactor;
    }
    var text := name[at + |MARKER|..];
    var arguments: seq<string>, depth: nat, token: string := [], 0, "";
    for i := 0 to |text|
      invariant Scan(text, 0, "", []) == Scan(text[i..], depth, token, arguments)
    {
      var c := text[i];
      assert text[i..][0] == c && text[i..][1..] == text[i + 1..];
      if c == '>' && depth == 0 {
        return Interpret(arguments + [Strip(token)]);
      }
      if c == ',' && depth == 0 {
        arguments := arguments + [Strip(token)];
        token := "";
        continue;
      }
      if c == '<' {
        depth := depth + 1;
      } else if c == '>' {
        depth := depth - 1;
      }
      token := token + [c];
    }
    return Interpret(arguments);
  }

  // -------------------------------------------------------------- round trip

  /** The nesting depth after s, or -1 when s contains a comma or closing bracket at the top. */
  function DepthAfter(s: string, depth: nat): int {
    if s == [] then depth
    else if (s[0] == '>' || s[0] == ',') && depth == 0 then -1
    else DepthAfter(s[1..], if s[0] == '<' then depth + 1 else if s[0] == '>' then depth - 1 else depth)
  }

  /** A bracket-balanced template argument. */
  predicate IsArgument(s: string) {
    DepthAfter(s, 0) == 0
  }

  lemma {:induction false} ScanThrough(s: string, rest: string, depth: nat, token: string, arguments: seq<string>)
    requires DepthAfter(s, depth) >= 0
    ensures Scan(s + rest, depth, token, arguments) == Scan(rest, DepthAfter(s, depth), token + s, arguments)
    decreases |s|
  {
    if s == [] {
      assert s + rest == rest && token + s == token;
    } else {
      var next := if s[0] == '<' then depth + 1 else if s[0] == '>' then depth - 1 else depth;
      assert (s + rest)[1..] == s[1..] + rest;
      ScanThrough(s[1..], rest, next, token + [s[0]], arguments);
      assert token + [s[0]] + s[1..] == token + s;
    }
  }

  function Join(arguments: seq<string>): string {
    if arguments == [] then ""
    else if |arguments| == 1 then arguments[0]
    else arguments[0] + "," + Join(arguments[1..])
  }

  lemma ScanComma(a: string, rest: string, before: seq<string>)
    requires IsArgument(a)
    ensures Scan(a + ("," + rest), 0, "", before) == Scan(rest, 0, "", before + [Strip(a)])
  {
    ScanThrough(a, "," + rest, 0, "", before);
    assert "" + a == a && ("," + rest)[1..] == rest;
  }

  lemma ScanClose(a: string, post: string, before: seq<string>)
    requires IsArgument(a)
    ensures Scan(a + (">" + post), 0, "", before) == before + [Strip(a)]
  {
    ScanThrough(a, ">" + post, 0, "", before);
    assert "" + a == a;
  }

  function Stripped(arguments: seq<string>): (r: seq<string>)
    ensures |r| == |arguments| && forall i | 0 <= i < |r| :: r[i] == Strip(arguments[i])
  {
    seq(|arguments|, i requires 0 <= i < |arguments| => Strip(arguments[i]))
  }

  ghost predicate AllArguments(s: seq<string>) {
    forall i | 0 <= i < |s| :: IsArgument(s[i])
  }

  lemma StrippedSplit(arguments: seq<string>)
    requires arguments != []
    ensures Stripped(arguments) == [Strip(arguments[0])] + Stripped(arguments[1..])
  {
  }

  lemma JoinSplit(arguments: seq<string>, end: string)
    requires |arguments| > 1
    ensures Join(arguments) + end == arguments[0] + ("," + (Join(arguments[1..]) + end))
  {
  }

  lemma Regrouped(before: seq<string>, a: string, rest: seq<string>)
    ensures before + [a] + rest == before + ([a] + rest)
  {
  }

  /** Scanning a joined list gives the list back up to blanks, whatever follows the closing
      bracket. */
  lemma {:induction false} ScanJoin(arguments: seq<string>, post: string, before: seq<string>)
    requires arguments != [] && AllArguments(arguments)
    ensures Scan(Join(arguments) + (">" + post), 0, "", before) == before + Stripped(arguments)
    decreases |arguments|
  {
    var a, tail := arguments[0], arguments[1..];
    StrippedSplit(arguments);
    if |arguments| == 1 {
      ScanClose(a, post, before);
      assert Stripped(arguments) == [Strip(a)];
    } else {
      JoinSplit(arguments, ">" + post);
      ScanComma(a, Join(tail) + (">" + post), before);
      ScanJoin(tail, post, before + [Strip(a)]);
      Regrouped(before, Strip(a), Stripped(tail));
    }
  }

  lemma InterpretStripped(arguments: seq<string>)
    ensures Interpret(Stripped(arguments)) == Interpret(arguments)
  {
    if |arguments| >= 9 {
      StripKeepsNumber(arguments[1]);
      StripKeepsNumber(arguments[2]);
      StripKeepsNumber(arguments[3]);
    }
  }

  /** The marker does not occur before position n. */
  ghost predicate NoEarlierMarker(name: string, n: nat) {
    forall i: nat | i < n :: !OccursAt(name, i)
  }

  lemma MarkerFound(pre: string, text: string)
    requires NoEarlierMarker(pre + (MARKER + text), |pre|)
    ensures var name := pre + (MARKER + text);
      |pre| < |name| && FindMarker(name, 0) == |pre| && name[|pre| + |MARKER|..] == text
  {
    var name := pre + (MARKER + text);
    assert name[|pre|..|pre| + |MARKER|] == MARKER;
    assert OccursAt(name, |pre|);
  }

  /** Whatever stands before the marker, as long as the marker does not occur earlier, and after the
      argument list: the parameters are the first numbers of arguments 1 to 3. */
  lemma ReadArguments(pre: string, arguments: seq<string>, post: string)
    requires |arguments| >= 9 && AllArguments(arguments)
    requires NoEarlierMarker(pre + (MARKER + (Join(arguments) + (">" + post))), |pre|)
    ensures Read(pre + (MARKER + (Join(arguments) + (">" + post)))) == Interpret(arguments)
  {
    ReadScans(pre, Join(arguments) + (">" + post));
    ScanJoin(arguments, post, []);
    assert [] + Stripped(arguments) == Stripped(arguments);
    InterpretStripped(arguments);
  }

  lemma ReadScans(pre: string, text: string)
    requires NoEarlierMarker(pre + (MARKER + text), |pre|)
    ensures Read(pre + (MARKER + text)) == Interpret(Scan(text, 0, "", []))
  {
    MarkerFound(pre, text);
  }

  // ------------------------------------------------------- names of launches

  /** The name of a kernel with these template arguments, in any surrounding text. */
  ghost predicate Spells(name: string, pre: string, arguments: seq<string>, post: string) {
    && name == pre + (MARKER + (Join(arguments) + (">" + post)))
    && NoEarlierMarker(name, |pre|)
    && |arguments| >= 9 && AllArguments(arguments)
  }

  /** Arguments 1 to 3 carry the stage coordinates, however they are decorated. */
  predicate Carries(arguments: seq<string>, total: nat, log: nat, done: nat) {
    && |arguments| >= 4
    && FirstNumber(arguments[1]) == Number(total)
    && FirstNumber(arguments[2]) == Number(log)
    && FirstNumber(arguments[3]) == Number(done)
  }

  /** A kernel name of the group with these coordinates. */
  ghost predicate NamesGroup(name: string, total: nat, log: nat, done: nat) {
    exists pre, arguments, post :: Spells(name, pre, arguments, post) && Carries(arguments, total, log, done)
  }

  /** Print/parse round trip: any name of a group reads back as its coordinates, for any balanced first
      argument, further arguments and surrounding text. */
  lemma NameReadsBack(name: string, total: nat, log: nat, done: nat)
    requires NamesGroup(name, total, log, done)
    ensures Read(name) == Parameters(total, log, done)
  {
    var pre, arguments, post :| Spells(name, pre, arguments, post) && Carries(arguments, total, log, done);
    ReadArguments(pre, arguments, post);
  }

  /** A prefix without the marker's first letter hides no marker. */
  lemma NoMarkerBefore(pre: string, text: string)
    requires forall i | 0 <= i < |pre| :: pre[i] != 'f'
    ensures NoEarlierMarker(pre + (MARKER + text), |pre|)
  {
    var name := pre + (MARKER + text);
    forall i: nat | i < |pre|
      ensures !OccursAt(name, i)
    {
      assert name[i] == pre[i];
      MarkerLetter(name, i);
    }
  }

  lemma MarkerLetter(name: string, i: nat)
    ensures OccursAt(name, i) ==> name[i] == 'f'
  {
    if OccursAt(name, i) {
      assert name[i..i + |MARKER|][0] == name[i];
    }
  }

  // ---------------------------------------------------- what the lowering prints

  /** The numeric axes of one factor group's kernel. */
  datatype Group = Group(total: nat, log: nat, done: nat, columns: nat, tiles: nat, depth: nat,
                         partial: bool, staticIo: bool)

  function PolicyArguments(g: Group): seq<string> {
    if g.staticIo then [if g.partial then "true" else "false", "true"]
    else if g.partial then ["true"] else []
  }

  /** The template arguments after the factor's own type. */
  function TemplateArguments(first: string, g: Group): seq<string> {
    [first, Print(g.total), Print(g.log), Print(g.done), Print(g.columns),
     Print(g.tiles), Print(g.depth), "Inverse", "Complex"] + PolicyArguments(g)
  }

  function PrintedKernel(first: string, g: Group): string {
    MARKER + (Join(TemplateArguments(first, g)) + ">")
  }

  /** The alias the lowering gives to the type of factor i. */
  function Alias(index: nat): string {
    "F" + Print(index) + "<Inverse>"
  }

  /** Text without brackets and commas. */
  predicate IsPlain(s: string) {
    forall i | 0 <= i < |s| :: s[i] != '<' && s[i] != '>' && s[i] != ','
  }

  lemma {:induction false} PlainIsFlat(s: string, depth: nat)
    requires IsPlain(s)
    ensures DepthAfter(s, depth) == depth
  {
    if s != [] {
      PlainIsFlat(s[1..], depth);
    }
  }

  lemma {:induction false} DepthConcat(s: string, t: string, depth: nat)
    requires DepthAfter(s, depth) >= 0
    ensures DepthAfter(s + t, depth) == DepthAfter(t, DepthAfter(s, depth))
    decreases |s|
  {
    if s == [] {
      assert s + t == t;
    } else {
      assert (s + t)[1..] == s[1..] + t;
      DepthConcat(s[1..], t, if s[0] == '<' then depth + 1 else if s[0] == '>' then depth - 1 else depth);
    }
  }

  lemma PrintIsArgument(n: nat)
    ensures IsArgument(Print(n))
  {
    PrintParses(n);
    PlainIsFlat(Print(n), 0);
  }

  /** Inside brackets commas are plain. */
  lemma {:induction false} InsideIsFlat(s: string, depth: nat)
    requires depth > 0 && forall i | 0 <= i < |s| :: s[i] != '<' && s[i] != '>'
    ensures DepthAfter(s, depth) == depth
  {
    if s != [] {
      InsideIsFlat(s[1..], depth);
    }
  }

  /** A template type such as FFT<float, 64>. */
  lemma TemplateIsArgument(head: string, inner: string)
    requires IsPlain(head) && forall i | 0 <= i < |inner| :: inner[i] != '<' && inner[i] != '>'
    ensures IsArgument(head + ("<" + (inner + ">")))
  {
    var tail := inner + ">";
    PlainIsFlat(head, 0);
    InsideIsFlat(inner, 1);
    DepthConcat(inner, ">", 1);
    assert ("<" + tail)[1..] == tail;
    DepthConcat(head, "<" + tail, 0);
  }

  /** F0<Inverse>, F1<Inverse>, ... */
  lemma AliasIsArgument(index: nat)
    ensures IsArgument(Alias(index))
  {
    PrintParses(index);
    TemplateIsArgument("F" + Print(index), "Inverse");
    assert "<" + ("Inverse" + ">") == "<Inverse>";
  }

  lemma AppendAll(s: seq<string>, t: seq<string>)
    requires AllArguments(s) && AllArguments(t)
    ensures AllArguments(s + t)
  {
  }

  lemma ThreeArguments(a: string, b: string, c: string)
    requires IsArgument(a) && IsArgument(b) && IsArgument(c)
    ensures AllArguments([a, b, c])
  {
  }

  lemma PoliciesBalanced(g: Group)
    ensures AllArguments(PolicyArguments(g))
  {
    PlainIsFlat("true", 0);
    PlainIsFlat("false", 0);
  }

  lemma TilingBalanced(g: Group)
    ensures AllArguments([Print(g.done), Print(g.columns), Print(g.tiles)])
  {
    PrintIsArgument(g.done);
    PrintIsArgument(g.columns);
    PrintIsArgument(g.tiles);
    ThreeArguments(Print(g.done), Print(g.columns), Print(g.tiles));
  }

  lemma TypesBalanced(g: Group)
    ensures AllArguments([Print(g.depth), "Inverse", "Complex"])
  {
    PrintIsArgument(g.depth);
    PlainIsFlat("Inverse", 0);
    PlainIsFlat("Complex", 0);
    ThreeArguments(Print(g.depth), "Inverse", "Complex");
  }

  lemma ArgumentsBalanced(first: string, g: Group)
    requires IsArgument(first)
    ensures AllArguments(TemplateArguments(first, g))
  {
    PrintIsArgument(g.total);
    PrintIsArgument(g.log);
    ThreeArguments(first, Print(g.total), Print(g.log));
    TilingBalanced(g);
    TypesBalanced(g);
    PoliciesBalanced(g);
    var x := [first, Print(g.total), Print(g.log)];
    var y, z := [Print(g.done), Print(g.columns), Print(g.tiles)], [Print(g.depth), "Inverse", "Complex"];
    AppendAll(x, y);
    AppendAll(x + y, z);
    AppendAll(x + y + z, PolicyArguments(g));
    assert TemplateArguments(first, g) == x + y + z + PolicyArguments(g);
  }

  lemma PrintedCarries(first: string, g: Group)
    ensures Carries(TemplateArguments(first, g), g.total, g.log, g.done)
  {
    FirstNumberOfPrint(g.total);
    FirstNumberOfPrint(g.log);
    FirstNumberOfPrint(g.done);
  }

  /** The printed kernel names its group, for any balanced first argument, wherever it is quoted and
      under every I/O policy. */
  lemma PrintedKernelNamesGroup(pre: string, first: string, g: Group, post: string)
    requires IsArgument(first) && NoEarlierMarker(pre + (PrintedKernel(first, g) + post), |pre|)
    ensures NamesGroup(pre + (PrintedKernel(first, g) + post), g.total, g.log, g.done)
  {
    var arguments := TemplateArguments(first, g);
    ArgumentsBalanced(first, g);
    PrintedCarries(first, g);
    Quoted(Join(arguments), post);
    Spelled(pre + (PrintedKernel(first, g) + post), pre, arguments, post, g.total, g.log, g.done);
  }

  lemma Quoted(list: string, post: string)
    ensures (MARKER + (list + ">")) + post == MARKER + (list + (">" + post))
  {
  }

  lemma Spelled(name: string, pre: string, arguments: seq<string>, post: string, total: nat, log: nat, done: nat)
    requires Spells(name, pre, arguments, post) && Carries(arguments, total, log, done)
    ensures NamesGroup(name, total, log, done)
  {
  }

  /** In particular the text the lowering itself generates reads back. */
  lemma PrintedKernelReadsBack(index: nat, g: Group)
    ensures Read(PrintedKernel(Alias(index), g)) == Parameters(g.total, g.log, g.done)
  {
    var text := PrintedKernel(Alias(index), g);
    AliasIsArgument(index);
    assert "" + (text + "") == text;
    PrintedKernelNamesGroup("", Alias(index), g, "");
    NameReadsBack(text, g.total, g.log, g.done);
  }

  // ------------------------------------------------------- what a trace records

  /** An unsigned template argument as the demangler writes it. */
  function Unsigned(n: nat): string {
    " " + (Print(n) + "u")
  }

  lemma UnsignedCarries(n: nat)
    ensures FirstNumber(Unsigned(n)) == Number(n) && IsArgument(Unsigned(n))
  {
    FirstNumberAround(" ", n, "u");
    PrintParses(n);
    PlainIsFlat(Unsigned(n), 0);
  }

  function DemangledArguments(first: string, total: nat, log: nat, done: nat, rest: seq<string>): seq<string> {
    [first, Unsigned(total), Unsigned(log), Unsigned(done)] + rest
  }

  /** The demangled form, with the factor's type written out, unsigned suffixes and blanks, after a return
      type and namespaces and before a parameter list. */
  function DemangledKernel(pre: string, first: string, total: nat, log: nat, done: nat, rest: seq<string>,
                           post: string): string
  {
    pre + (MARKER + (Join(DemangledArguments(first, total, log, done, rest)) + (">" + post)))
  }

  lemma DemangledKernelNamesGroup(pre: string, first: string, total: nat, log: nat, done: nat, rest: seq<string>,
                                  post: string)
    requires IsArgument(first) && AllArguments(rest) && |rest| >= 5
    requires forall i | 0 <= i < |pre| :: pre[i] != 'f'
    ensures NamesGroup(DemangledKernel(pre, first, total, log, done, rest, post), total, log, done)
  {
    var arguments := DemangledArguments(first, total, log, done, rest);
    UnsignedCarries(total);
    UnsignedCarries(log);
    UnsignedCarries(done);
    ThreeArguments(Unsigned(total), Unsigned(log), Unsigned(done));
    var head := [first] + [Unsigned(total), Unsigned(log), Unsigned(done)];
    AppendAll([first], [Unsigned(total), Unsigned(log), Unsigned(done)]);
    AppendAll(head, rest);
    assert arguments == head + rest;
    NoMarkerBefore(pre, Join(arguments) + (">" + post));
    Spelled(DemangledKernel(pre, first, total, log, done, rest, post), pre, arguments, post, total, log, done);
  }
}
