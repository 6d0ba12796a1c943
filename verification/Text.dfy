/**
 * The text of the control protocol: numbers, words separated by spaces, and commands that end in an
 * exclamation mark. Strings are the program's bytes, one character each.
 */
module Text {
  import opened Options
  import opened Words
  import opened Runs

  // ---------------------------------------------------------------- numbers

  function Digit(d: nat): char
    requires d < 10
  {
    '0' + d as char
  }

  predicate IsDigit(c: char) {
    '0' <= c <= '9'
  }

  function DigitValue(c: char): nat
    requires IsDigit(c)
  {
    c as int - '0' as int
  }

  /** %u */
  function Decimal(n: nat): (s: string)
    ensures s != [] && forall i :: 0 <= i < |s| ==> IsDigit(s[i])
  {
    if n < 10 then [Digit(n)] else Decimal(n / 10) + [Digit(n % 10)]
  }

  /** %d of a value that is passed unsigned. */
  function Signed(n: uint32): string {
    if n < 0x8000_0000 then Decimal(n) else "-" + Decimal(0x1_0000_0000 - n)
  }

  predicate AllDigits(s: string) {
    forall i :: 0 <= i < |s| ==> IsDigit(s[i])
  }

  function Value(s: string): nat
    requires AllDigits(s)
  {
    if s == [] then 0 else 10 * Value(s[..|s| - 1]) + DigitValue(s[|s| - 1])
  }

  /** A sign before the digits is allowed if it is a plus. */
  function Unsign(s: string): string {
    if s != [] && s[0] == '+' then s[1..] else s
  }

  function ParseUInt(s: string): Option<uint32> {
    var t := Unsign(s);
    if t != [] && AllDigits(t) && Value(t) < 0x1_0000_0000 then Some(Value(t)) else None
  }

  /** toUInt: anything that is not a number of 32 bits is zero. */
  function ToUInt(s: string): uint32 {
    if ParseUInt(s).Some? then ParseUInt(s).value else 0
  }

  /** toInt, with whether it worked. */
  function ToInt(s: string): Option<int> {
    if s != [] && s[0] == '-' then
      if s[1..] != [] && AllDigits(s[1..]) && Value(s[1..]) <= 0x8000_0000 then Some(0 - Value(s[1..]) as int) else None
    else
      var t := Unsign(s);
      if t != [] && AllDigits(t) && Value(t) < 0x8000_0000 then Some(Value(t)) else None
  }

  lemma {:induction false} DecimalValue(n: nat)
    ensures Value(Decimal(n)) == n
  {
    if n >= 10 {
      DecimalValue(n / 10);
      assert Decimal(n)[..|Decimal(n)| - 1] == Decimal(n / 10);
    }
  }

  /** Every number is read back from its digits. */
  lemma DecimalRoundTrip(n: nat)
    ensures n < 0x1_0000_0000 ==> ParseUInt(Decimal(n)) == Some(n) && ToUInt(Decimal(n)) == n
    ensures n < 0x8000_0000 ==> ToInt(Decimal(n)) == Some(n)
  {
    DecimalValue(n);
    assert IsDigit(Decimal(n)[0]);
  }

  /** Printed signed it is not, from 2^31 up: it reads as zero. */
  lemma SignedReads(n: uint32)
    ensures ToUInt(Signed(n)) == if n < 0x8000_0000 then n else 0
  {
    DecimalRoundTrip(n);
    assert n >= 0x8000_0000 ==> Signed(n)[0] == '-';
  }

  // ---------------------------------------------------------------- what reads as a number

  function Zeros(k: nat): string {
    seq(k, _ => '0')
  }

  lemma ZerosNext(k: nat)
    ensures Zeros(k) + "0" == Zeros(k + 1)
  {
  }

  lemma DecimalStep(v: nat, c: char)
    requires IsDigit(c)
    ensures Digit(DigitValue(c)) == c
    ensures v > 0 ==> Decimal(10 * v + DigitValue(c)) == Decimal(v) + [c]
    ensures v == 0 ==> Decimal(10 * v + DigitValue(c)) == [c] && Decimal(v) == "0"
  {
  }

  /** Digits are zeros and then a number as it is printed. */
  lemma {:induction false} DigitsPrinted(s: string) returns (k: nat)
    requires s != [] && AllDigits(s)
    ensures s == Zeros(k) + Decimal(Value(s))
  {
    hide Decimal;
    var t, c := s[..|s| - 1], s[|s| - 1];
    assert s == t + [c];
    if t == [] {
      k := 0;
      DecimalStep(0, c);
    } else {
      k := DigitsPrinted(t);
      DecimalStep(Value(t), c);
      if Value(t) == 0 {
        ZerosNext(k);
        k := k + 1;
      } else {
        assert s == Zeros(k) + (Decimal(Value(t)) + [c]);
      }
    }
  }

  lemma {:induction false} ZerosValue(k: nat, s: string)
    requires AllDigits(s)
    ensures AllDigits(Zeros(k) + s) && Value(Zeros(k) + s) == Value(s)
    decreases |s|, k
  {
    var t := Zeros(k) + s;
    if s == [] {
      if k > 0 {
        ZerosNext(k - 1);
        ZerosValue(k - 1, []);
        assert t[..k - 1] == Zeros(k - 1) + [];
      } else {
        assert t == [];
      }
    } else {
      ZerosValue(k, s[..|s| - 1]);
      assert t[..|t| - 1] == Zeros(k) + s[..|s| - 1];
    }
  }

  ghost predicate Printed(s: string, v: nat) {
    exists k :: s == Zeros(k) + Decimal(v)
  }

  lemma PrintedExactly(s: string, v: nat)
    ensures Printed(s, v) <==> s != [] && AllDigits(s) && Value(s) == v
  {
    hide Decimal, Value;
    if Printed(s, v) {
      var k :| s == Zeros(k) + Decimal(v);
      ZerosValue(k, Decimal(v));
      DecimalValue(v);
    } else if s != [] && AllDigits(s) && Value(s) == v {
      var k := DigitsPrinted(s);
    }
  }

  lemma PrintedHead(s: string, v: nat)
    requires Printed(s, v)
    ensures s != [] && IsDigit(s[0])
  {
    hide Decimal;
  }

  /** A text reads as a number exactly when it is that number as printed, after zeros and perhaps a plus, and
      fits; with the sign, a minus may stand there too. */
  lemma NumbersReadExactly(s: string, v: nat)
    ensures ParseUInt(s) == Some(v) <==>
            v < 0x1_0000_0000 && (Printed(s, v) || (s != [] && s[0] == '+' && Printed(s[1..], v)))
    ensures ToInt(s) == Some(v) <==>
            || (v < 0x8000_0000 && (Printed(s, v) || (s != [] && s[0] == '+' && Printed(s[1..], v))))
            || (v == 0 && s != [] && s[0] == '-' && Printed(s[1..], 0))
    ensures v > 0 ==>
              (ToInt(s) == Some(0 - v as int) <==> v <= 0x8000_0000 && s != [] && s[0] == '-' && Printed(s[1..], v))
  {
    hide Value, Printed;
    PrintedExactly(s, v);
    if s != [] {
      PrintedExactly(s[1..], v);
    }
  }

  // ---------------------------------------------------------------- words

  predicate IsSpace(c: char) {
    c == ' ' || '\t' <= c <= '\r'
  }

  /** Neither space nor end of command in it. */
  ghost predicate Word(w: string) {
    w != [] && forall i :: 0 <= i < |w| ==> !IsSpace(w[i]) && w[i] != '!'
  }

  ghost predicate AllWords(ws: seq<string>) {
    forall i :: 0 <= i < |ws| ==> Word(ws[i])
  }

  function Joined(ws: seq<string>, sep: char): string {
    if ws == [] then [] else if |ws| == 1 then ws[0] else ws[0] + [sep] + Joined(ws[1..], sep)
  }

  function Spaced(ws: seq<string>): string {
    Joined(ws, ' ')
  }

  function Flush(w: string): seq<string> {
    if w == [] then [] else [w]
  }

  /** The rest of a split, `w` being the part so far; empty parts are left out. */
  function SplitFrom(s: string, sep: char, w: string): seq<string>
    decreases |s|
  {
    if s == [] then Flush(w)
    else if s[0] == sep then Flush(w) + SplitFrom(s[1..], sep, [])
    else SplitFrom(s[1..], sep, w + [s[0]])
  }

  function Split(s: string, sep: char): seq<string> {
    SplitFrom(s, sep, [])
  }

  lemma {:induction false} SplitPast(a: string, rest: string, sep: char, w: string)
    requires sep !in a
    ensures SplitFrom(a + rest, sep, w) == SplitFrom(rest, sep, w + a)
    decreases |a|
  {
    if a == [] {
      assert a + rest == rest && w + a == w;
    } else {
      assert (a + rest)[0] == a[0] && (a + rest)[1..] == a[1..] + rest;
      SplitPast(a[1..], rest, sep, w + [a[0]]);
      assert w + [a[0]] + a[1..] == w + a;
    }
  }

  lemma {:induction false} SplitJoined(ws: seq<string>, sep: char)
    requires forall i :: 0 <= i < |ws| ==> ws[i] != [] && sep !in ws[i]
    ensures Split(Joined(ws, sep), sep) == ws
  {
    if ws != [] {
      assert sep !in ws[0] && [] + ws[0] == ws[0];
      if |ws| == 1 {
        SplitPast(ws[0], [], sep, []);
        assert ws[0] + [] == ws[0];
      } else {
        var rest := [sep] + Joined(ws[1..], sep);
        SplitPast(ws[0], rest, sep, []);
        assert ws[0] + [sep] + Joined(ws[1..], sep) == ws[0] + rest;
        assert rest[1..] == Joined(ws[1..], sep);
        SplitJoined(ws[1..], sep);
      }
    }
  }

  /** Words come back from a line of them. */
  lemma SplitSpaced(ws: seq<string>)
    requires AllWords(ws)
    ensures Split(Spaced(ws), ' ') == ws
  {
    SplitJoined(ws, ' ');
  }

  /** Without the white space around it. */
  function Strip(s: string): string {
    if s == [] then []
    else if IsSpace(s[0]) then Strip(s[1..])
    else if IsSpace(s[|s| - 1]) then Strip(s[..|s| - 1])
    else s
  }

  lemma {:induction false} SpacedEnds(ws: seq<string>)
    requires AllWords(ws) && ws != []
    ensures Spaced(ws) != [] && !IsSpace(Spaced(ws)[0]) && !IsSpace(Spaced(ws)[|Spaced(ws)| - 1])
    ensures '!' !in Spaced(ws)
  {
    if |ws| > 1 {
      SpacedEnds(ws[1..]);
    }
  }

  // ---------------------------------------------------------------- what splits into words

  function Gap(n: nat, sep: char): string {
    seq(n, _ => sep)
  }

  /** Words with gaps before, between and after them. */
  function Gapped(ws: seq<string>, gaps: seq<nat>, sep: char): string
    requires |gaps| == |ws| + 1
    decreases |ws|
  {
    if ws == [] then Gap(gaps[0], sep) else Gap(gaps[0], sep) + ws[0] + Gapped(ws[1..], gaps[1..], sep)
  }

  ghost predicate Parts(ws: seq<string>, sep: char) {
    forall i :: 0 <= i < |ws| ==> ws[i] != [] && sep !in ws[i]
  }

  ghost predicate Apart(ws: seq<string>, gaps: seq<nat>) {
    |gaps| == |ws| + 1 && forall i :: 0 < i < |ws| ==> gaps[i] > 0
  }

  lemma {:induction false} SplitGap(n: nat, rest: string, sep: char)
    ensures SplitFrom(Gap(n, sep) + rest, sep, []) == SplitFrom(rest, sep, [])
  {
    var s := Gap(n, sep) + rest;
    if n == 0 {
      assert s == rest;
    } else {
      assert s[0] == sep && s[1..] == Gap(n - 1, sep) + rest;
      SplitGap(n - 1, rest, sep);
    }
  }

  lemma {:induction false} SplitGapped(ws: seq<string>, gaps: seq<nat>, sep: char)
    requires Parts(ws, sep) && Apart(ws, gaps)
    ensures Split(Gapped(ws, gaps, sep), sep) == ws
    decreases |ws|
  {
    hide Gap;
    if ws == [] {
      SplitGap(gaps[0], [], sep);
      assert Gap(gaps[0], sep) + [] == Gap(gaps[0], sep);
    } else {
      var rest := Gapped(ws[1..], gaps[1..], sep);
      assert Gapped(ws, gaps, sep) == Gap(gaps[0], sep) + (ws[0] + rest);
      SplitGap(gaps[0], ws[0] + rest, sep);
      SplitPast(ws[0], rest, sep, []);
      assert [] + ws[0] == ws[0];
      SplitGapped(ws[1..], gaps[1..], sep);
      SplitAfter(ws, gaps, sep);
    }
  }

  /** The word before a gap, or before nothing, is complete. */
  lemma SplitAfter(ws: seq<string>, gaps: seq<nat>, sep: char)
    requires ws != [] && Parts(ws, sep) && Apart(ws, gaps)
    ensures var rest := Gapped(ws[1..], gaps[1..], sep);
            SplitFrom(rest, sep, ws[0]) == [ws[0]] + SplitFrom(rest, sep, [])
  {
    var rest := Gapped(ws[1..], gaps[1..], sep);
    if rest != [] {
      assert gaps[1..][0] > 0;
      assert rest[0] == sep;
    }
  }

  /** Every text is its words with gaps. */
  lemma {:induction false} SplitCovers(s: string, sep: char, w: string) returns (gaps: seq<nat>)
    requires sep !in w
    ensures var ws := SplitFrom(s, sep, w);
            && Parts(ws, sep) && Apart(ws, gaps) && Gapped(ws, gaps, sep) == w + s
            && (w != [] ==> gaps[0] == 0)
    decreases |s|
  {
    if s == [] {
      gaps := if w == [] then [0] else [0, 0];
      assert w != [] ==> [w][1..] == [] && [0, 0][1..] == [0];
    } else if s[0] == sep {
      gaps := SplitCovers(s[1..], sep, []);
      var ws := SplitFrom(s[1..], sep, []);
      var wider := gaps[0 := gaps[0] + 1];
      WiderGap(ws, gaps, sep);
      assert [sep] + s[1..] == s;
      if w == [] {
        gaps := wider;
        assert Flush(w) + ws == ws;
      } else {
        gaps := [0] + wider;
        assert ([w] + ws)[1..] == ws && gaps[1..] == wider;
      }
    } else {
      gaps := SplitCovers(s[1..], sep, w + [s[0]]);
      assert w + [s[0]] + s[1..] == w + s;
    }
  }

  lemma WiderGap(ws: seq<string>, gaps: seq<nat>, sep: char)
    requires |gaps| == |ws| + 1
    ensures Gapped(ws, gaps[0 := gaps[0] + 1], sep) == [sep] + Gapped(ws, gaps, sep)
  {
    assert Gap(gaps[0] + 1, sep) == [sep] + Gap(gaps[0], sep);
    assert gaps[0 := gaps[0] + 1][1..] == gaps[1..];
  }

  /** A text splits into given words exactly when it is those words, whole, with any gaps around them. */
  lemma SplitsExactly(s: string, sep: char, ws: seq<string>)
    ensures Split(s, sep) == ws <==> Parts(ws, sep) && exists gaps :: Apart(ws, gaps) && s == Gapped(ws, gaps, sep)
  {
    hide Gapped, SplitFrom;
    if Split(s, sep) == ws {
      var gaps := SplitCovers(s, sep, []);
      assert [] + s == s;
    } else if Parts(ws, sep) && exists gaps :: Apart(ws, gaps) && s == Gapped(ws, gaps, sep) {
      var gaps :| Apart(ws, gaps) && s == Gapped(ws, gaps, sep);
      SplitGapped(ws, gaps, sep);
      assert false;
    }
  }

  ghost predicate AllSpace(s: string) {
    forall i :: 0 <= i < |s| ==> IsSpace(s[i])
  }

  ghost predicate Stripped(s: string) {
    s != [] ==> !IsSpace(s[0]) && !IsSpace(s[|s| - 1])
  }

  /** Only white space goes, and all of it. */
  lemma {:induction false} StripsExactly(a: string, s: string, b: string)
    requires AllSpace(a) && AllSpace(b) && Stripped(s)
    ensures Strip(a + s + b) == s
    decreases |a| + |b|
  {
    var t := a + s + b;
    if a != [] {
      assert t[0] == a[0] && t[1..] == a[1..] + s + b;
      StripsExactly(a[1..], s, b);
    } else if b != [] {
      var n := |b| - 1;
      assert t[|t| - 1] == b[n] && t[..|t| - 1] == a + s + b[..n];
      StripsExactly(a, s, b[..n]);
      if s == [] && |t| > 0 && IsSpace(t[0]) {
        assert AllSpace(t) && t == t + [] + [];
        StripsSpace(t);
      }
    } else {
      assert t == s;
    }
  }

  lemma {:induction false} StripsSpace(s: string)
    requires AllSpace(s)
    ensures Strip(s) == []
  {
    if s != [] {
      StripsSpace(s[1..]);
    }
  }

  lemma {:induction false} StripLeaves(s: string)
    ensures Stripped(Strip(s)) && forall c :: c in Strip(s) ==> c in s
    decreases |s|
  {
    if s != [] {
      if IsSpace(s[0]) {
        StripLeaves(s[1..]);
      } else if IsSpace(s[|s| - 1]) {
        StripLeaves(s[..|s| - 1]);
      }
    }
  }

  /** Words made into a line again are read as the same words. */
  lemma WordsBack(line: string)
    requires '!' !in line
    ensures var ws := Split(Strip(line), ' ');
            '!' !in Spaced(ws) && Split(Strip(Spaced(ws)), ' ') == ws
  {
    hide Strip, SplitFrom, Joined;
    var t := Strip(line);
    var ws := Split(t, ' ');
    StripLeaves(line);
    PartsOfText(t, []);
    assert [] + t == t;
    if t != [] {
      PartsBegin(t, []);
      PartsEnd(t, []);
    }
    SplitJoined(ws, ' ');
    assert forall i :: 0 <= i < |ws| && '!' in ws[i] ==> '!' in t;
    JoinedMadeOf(ws, ' ', '!');
    if ws != [] {
      JoinedEnds(ws, ' ');
      assert ws[0][0] in ws[0] && ws[0][0] in t;
    } else {
      NothingJoined();
    }
    StripsExactly([], Spaced(ws), []);
    assert [] + Spaced(ws) + [] == Spaced(ws);
  }

  lemma {:induction false} PartsOfText(s: string, w: string)
    requires ' ' !in w
    ensures var ws := SplitFrom(s, ' ', w);
            Parts(ws, ' ') && forall i, c :: 0 <= i < |ws| && c in ws[i] ==> c in w + s
    decreases |s|
  {
    if s != [] {
      if s[0] == ' ' {
        PartsOfText(s[1..], []);
        forall i, c | 0 <= i < |SplitFrom(s[1..], ' ', [])| && c in SplitFrom(s[1..], ' ', [])[i]
          ensures c in s
        {
          assert c in [] + s[1..];
        }
      } else {
        PartsOfText(s[1..], w + [s[0]]);
        assert w + [s[0]] + s[1..] == w + s;
      }
    }
  }

  /** The first part begins as the text does, unless that is a space. */
  lemma {:induction false} PartsBegin(s: string, w: string)
    requires w != [] || (s != [] && s[0] != ' ')
    ensures var ws := SplitFrom(s, ' ', w);
            ws != [] && ws[0] != [] && ws[0][0] == (w + s)[0]
    decreases |s|
  {
    if s != [] && s[0] != ' ' {
      PartsBegin(s[1..], w + [s[0]]);
      assert w + [s[0]] + s[1..] == w + s;
    }
  }

  /** The last part ends as the text does, unless that is a space. */
  lemma {:induction false} PartsEnd(s: string, w: string)
    requires s != [] && s[|s| - 1] != ' '
    ensures var ws := SplitFrom(s, ' ', w);
            ws != [] && ws[|ws| - 1] != [] && ws[|ws| - 1][|ws[|ws| - 1]| - 1] == s[|s| - 1]
    decreases |s|
  {
    if s[0] == ' ' {
      PartsEnd(s[1..], []);
    } else if |s| > 1 {
      PartsEnd(s[1..], w + [s[0]]);
    } else {
      assert SplitFrom(s, ' ', w) == [w + [s[0]]];
    }
  }

  lemma {:induction false} JoinedEnds(ws: seq<string>, sep: char)
    requires ws != [] && forall i :: 0 <= i < |ws| ==> ws[i] != []
    ensures var j := Joined(ws, sep);
            j != [] && j[0] == ws[0][0] && j[|j| - 1] == ws[|ws| - 1][|ws[|ws| - 1]| - 1]
  {
    if |ws| > 1 {
      JoinedEnds(ws[1..], sep);
    }
  }

  lemma NothingJoined()
    ensures Spaced([]) == []
  {
  }

  lemma {:induction false} JoinedMadeOf(ws: seq<string>, sep: char, c: char)
    requires c != sep && forall i :: 0 <= i < |ws| ==> c !in ws[i]
    ensures c !in Joined(ws, sep)
  {
    if |ws| > 1 {
      JoinedMadeOf(ws[1..], sep, c);
    }
  }

  // ---------------------------------------------------------------- commands

  /** What has been read of the command to come, and the commands read. */
  datatype Reading = Reading(line: string, commands: seq<string>)

  function Read(r: Reading, c: char): Reading {
    if c == '!' then Reading([], r.commands + [r.line]) else r.(line := r.line + [c])
  }

  function ReadAll(r: Reading, s: string): Reading {
    Fold(Read, r, s)
  }

  function ReadChunks(r: Reading, chunks: seq<string>): Reading
    decreases |chunks|
  {
    if chunks == [] then r else ReadChunks(ReadAll(r, chunks[0]), chunks[1..])
  }

  /** However the bytes arrive, the same commands are read. */
  lemma {:induction false} ChunksDoNotMatter(r: Reading, chunks: seq<string>)
    ensures ReadChunks(r, chunks) == ReadAll(r, Concat(chunks))
    decreases |chunks|
  {
    if chunks != [] {
      ChunksDoNotMatter(ReadAll(r, chunks[0]), chunks[1..]);
      FoldJoin(Read, r, chunks[0], Concat(chunks[1..]));
    }
  }

  function Terminated(commands: seq<string>): string {
    if commands == [] then [] else commands[0] + "!" + Terminated(commands[1..])
  }

  lemma {:induction false} ReadLine(r: Reading, s: string)
    requires '!' !in s
    ensures ReadAll(r, s) == r.(line := r.line + s)
    decreases |s|
  {
    if s == [] {
      assert r.line + s == r.line;
    } else {
      ReadLine(Read(r, s[0]), s[1..]);
      assert r.line + [s[0]] + s[1..] == r.line + s;
    }
  }

  /** Commands sent one after the other are the commands read, in whatever pieces they arrive. */
  lemma {:induction false} CommandsRoundTrip(r: Reading, commands: seq<string>, chunks: seq<string>)
    requires r.line == [] && forall i :: 0 <= i < |commands| ==> '!' !in commands[i]
    requires Concat(chunks) == Terminated(commands)
    ensures ReadChunks(r, chunks) == r.(commands := r.commands + commands)
  {
    ChunksDoNotMatter(r, chunks);
    TerminatedRead(r, commands);
  }

  lemma {:induction false} TerminatedRead(r: Reading, commands: seq<string>)
    requires r.line == [] && forall i :: 0 <= i < |commands| ==> '!' !in commands[i]
    ensures ReadAll(r, Terminated(commands)) == r.(commands := r.commands + commands)
    decreases |commands|
  {
    if commands == [] {
      assert r.commands + [] == r.commands;
    } else {
      var line, rest := commands[0], Terminated(commands[1..]);
      var r1 := r.(line := line);
      ReadLine(r, line);
      assert r.line + line == line;
      FoldJoin(Read, r, line + "!", rest);
      FoldJoin(Read, r, line, "!");
      FoldOne(Read, r1, '!');
      TerminatedRead(Read(r1, '!'), commands[1..]);
      assert r.commands + [line] + commands[1..] == r.commands + commands;
    }
  }

  /** The buffering end of a socket, at the server and at the client alike. */
  class LineReader {
    var line: string

    constructor ()
      ensures line == []
    {
      line := [];
    }

    /** Some bytes have arrived; each command is acted on as its end is met. */
    method ReadyRead(bytes: string) returns (commands: seq<string>)
      modifies this
      ensures Reading(line, commands) == ReadAll(Reading(old(line), []), bytes)
    {
      commands := [];
      var i := 0;
      while i < |bytes|
        invariant 0 <= i <= |bytes|
        invariant ReadAll(Reading(line, commands), bytes[i..]) == ReadAll(Reading(old(line), []), bytes)
      {
        assert bytes[i..][0] == bytes[i] && bytes[i..][1..] == bytes[i + 1..];
        if bytes[i] == '!' {
          commands := commands + [line];
          line := [];
        } else {
          line := line + [bytes[i]];
        }
        i := i + 1;
      }
    }
  }
}
