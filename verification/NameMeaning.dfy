/** What any text whatsoever reads as: the three outcomes of reading a kernel name. */
module NameMeaning {
  import opened KernelName

  /** The text that marks a factor kernel occurs at position i. */
  ghost predicate MarkedAt(name: string, i: nat) {
    && i + |"factor_streamed::kernel<"| <= |name|
    && name[i..i + |"factor_streamed::kernel<"|] == "factor_streamed::kernel<"
  }

  /** What follows the first mark. */
  ghost predicate AfterMark(name: string, text: string) {
    exists i: nat :: MarkedAt(name, i) && text == name[i + |"factor_streamed::kernel<"|..]
                     && forall k: nat | k < i :: !MarkedAt(name, k)
  }

  /** Arguments that each end with a comma. */
  function Terminated(arguments: seq<string>): string {
    if arguments == [] then "" else arguments[0] + ("," + Terminated(arguments[1..]))
  }

  /** The text is an argument list with its closing bracket, or completed arguments and a rest that does not end
      the list; every argument is balanced. */
  ghost predicate Lists(text: string, arguments: seq<string>) {
    && AllArguments(arguments)
    && (|| (arguments != [] && exists post :: text == Join(arguments) + (">" + post))
        || (exists rest :: text == Terminated(arguments) + rest && DepthAfter(rest, 0) >= 0))
  }

  // --- every text is such a list

  /** Up to where the text stays inside one argument. */
  lemma {:induction false} ArgumentEnd(text: string, depth: nat) returns (n: nat)
    ensures n <= |text| && DepthAfter(text[..n], depth) >= 0
    ensures n < |text| ==> DepthAfter(text[..n], depth) == 0 && (text[n] == '>' || text[n] == ',')
  {
    if text == [] || ((text[0] == '>' || text[0] == ',') && depth == 0) {
      n := 0;
    } else {
      var next := if text[0] == '<' then depth + 1 else if text[0] == '>' then depth - 1 else depth;
      n := ArgumentEnd(text[1..], next);
      n := n + 1;
      assert text[..n][1..] == text[1..][..n - 1];
    }
  }

  lemma ListsMore(a: string, rest: string, arguments: seq<string>)
    requires IsArgument(a) && Lists(rest, arguments)
    ensures Lists(a + ("," + rest), [a] + arguments)
  {
    var all, text := [a] + arguments, a + ("," + rest);
    assert all[1..] == arguments;
    if arguments != [] && exists post :: rest == Join(arguments) + (">" + post) {
      var post :| rest == Join(arguments) + (">" + post);
      assert Join(all) == a + ("," + Join(arguments));
      assert text == Join(all) + (">" + post);
    } else {
      var tail :| rest == Terminated(arguments) + tail && DepthAfter(tail, 0) >= 0;
      assert Terminated(all) == a + ("," + Terminated(arguments));
      assert text == Terminated(all) + tail;
    }
  }

  /** Any text lists some arguments. */
  lemma {:induction false} EveryTextLists(text: string) returns (arguments: seq<string>)
    ensures Lists(text, arguments)
    decreases |text|
  {
    var n := ArgumentEnd(text, 0);
    var a := text[..n];
    if n == |text| {
      arguments := [];
      assert text == Terminated([]) + text && a == text;
    } else if text[n] == '>' {
      arguments := [a];
      assert text == Join([a]) + (">" + text[n + 1..]);
    } else {
      var rest := EveryTextLists(text[n + 1..]);
      ListsMore(a, text[n + 1..], rest);
      assert text == a + ("," + text[n + 1..]);
      arguments := [a] + rest;
    }
  }

  // --- and the scan finds them

  lemma {:induction false} ScanTerminated(arguments: seq<string>, rest: string, before: seq<string>)
    requires AllArguments(arguments) && DepthAfter(rest, 0) >= 0
    ensures Scan(Terminated(arguments) + rest, 0, "", before) == before + Stripped(arguments)
    decreases |arguments|
  {
    if arguments == [] {
      assert Terminated(arguments) + rest == rest + "";
      ScanThrough(rest, "", 0, "", before);
      assert before + Stripped(arguments) == before;
    } else {
      var a, tail := arguments[0], arguments[1..];
      assert Terminated(arguments) + rest == a + ("," + (Terminated(tail) + rest));
      ScanComma(a, Terminated(tail) + rest, before);
      ScanTerminated(tail, rest, before + [Strip(a)]);
      StrippedSplit(arguments);
      Regrouped(before, Strip(a), Stripped(tail));
    }
  }

  lemma ScanLists(text: string, arguments: seq<string>)
    requires Lists(text, arguments)
    ensures Scan(text, 0, "", []) == Stripped(arguments)
  {
    if arguments != [] && exists post :: text == Join(arguments) + (">" + post) {
      var post :| text == Join(arguments) + (">" + post);
      ScanJoin(arguments, post, []);
    } else {
      var rest :| text == Terminated(arguments) + rest && DepthAfter(rest, 0) >= 0;
      ScanTerminated(arguments, rest, []);
    }
    assert [] + Stripped(arguments) == Stripped(arguments);
  }

  lemma MarkMeans(name: string, i: nat)
    ensures OccursAt(name, i) <==> MarkedAt(name, i)
  {
  }

  // --- numbers in arguments

  /** The number written by the first digits of s. */
  ghost predicate FirstDigits(s: string, n: nat) {
    exists pre, digits, post :: s == pre + (digits + post) && NoDigits(pre) && digits != [] && AllDigits(digits)
                                && (post != [] ==> !IsDigit(post[0])) && n == ParseNat(digits)
  }

  lemma {:induction false} RunSplits(s: string)
    ensures var r := DigitRun(s);
      |r| <= |s| && s[..|r|] == r && (|r| < |s| ==> !IsDigit(s[|r|])) && (s != [] && IsDigit(s[0]) ==> r != [])
  {
    if s != [] && IsDigit(s[0]) {
      RunSplits(s[1..]);
      var run := DigitRun(s[1..]);
      assert s[..|run| + 1] == [s[0]] + s[1..][..|run|];
    }
  }

  lemma DigitsAfter(c: char, s: string, n: nat)
    requires !IsDigit(c) && FirstDigits(s, n)
    ensures FirstDigits([c] + s, n)
  {
    var pre, digits, post :| s == pre + (digits + post) && NoDigits(pre) && digits != [] && AllDigits(digits)
                             && (post != [] ==> !IsDigit(post[0])) && n == ParseNat(digits);
    assert [c] + s == ([c] + pre) + (digits + post);
  }

  lemma {:induction false} FirstNumberMeans(s: string)
    ensures FirstNumber(s).Missing? <==> NoDigits(s)
    ensures FirstNumber(s).Number? ==> FirstDigits(s, FirstNumber(s).value)
  {
    if s != [] && IsDigit(s[0]) {
      RunSplits(s);
      var r := DigitRun(s);
      assert s == "" + (r + s[|r|..]);
    } else if s != [] {
      FirstNumberMeans(s[1..]);
      assert s == [s[0]] + s[1..];
      if FirstNumber(s).Number? {
        DigitsAfter(s[0], s[1..], FirstNumber(s).value);
      }
    }
  }

  // --- the three outcomes

  /** A name without the mark is no factor kernel, and no other name is. */
  lemma NotAFactorMeans(name: string)
    ensures Read(name).NotAFactor? <==> forall i: nat :: !MarkedAt(name, i)
  {
    var at := FindMarker(name, 0);
    forall i: nat
      ensures OccursAt(name, i) <==> MarkedAt(name, i)
    {
      MarkMeans(name, i);
    }
    if at < |name| {
      assert MarkedAt(name, at);
    }
  }

  lemma FirstMark(name: string, text: string)
    requires AfterMark(name, text)
    ensures Read(name) == Interpret(Scan(text, 0, "", []))
  {
    var i: nat :| MarkedAt(name, i) && text == name[i + |"factor_streamed::kernel<"|..]
                  && forall k: nat | k < i :: !MarkedAt(name, k);
    forall k: nat
      ensures OccursAt(name, k) <==> MarkedAt(name, k)
    {
      MarkMeans(name, k);
    }
    assert FindMarker(name, 0) == i;
  }

  /** What stands behind the first mark decides: fewer than nine arguments, or one of the second to fourth without
      a digit, and the name raises; otherwise it reads as the first numbers of these three. */
  lemma ReadMeans(name: string, text: string) returns (arguments: seq<string>)
    requires AfterMark(name, text)
    ensures Lists(text, arguments)
    ensures Read(name).Malformed? <==>
              |arguments| < 9 || NoDigits(arguments[1]) || NoDigits(arguments[2]) || NoDigits(arguments[3])
    ensures Read(name).Parameters? ==>
      && |arguments| >= 9 && FirstDigits(arguments[1], Read(name).total)
      && FirstDigits(arguments[2], Read(name).log) && FirstDigits(arguments[3], Read(name).done)
  {
    arguments := EveryTextLists(text);
    FirstMark(name, text);
    ScanLists(text, arguments);
    InterpretStripped(arguments);
    if |arguments| >= 9 {
      FirstNumberMeans(arguments[1]);
      FirstNumberMeans(arguments[2]);
      FirstNumberMeans(arguments[3]);
    }
  }
}
