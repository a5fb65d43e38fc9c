/** The ANSI terminal: a state machine over the characters written to it, and the interpreter of the colour
    sequence (Select Graphic Rendition, ECMA-48 section 8.3.117). */
module Ansi {
  import opened Options

  const ESC: char := '\U{001B}'
  const PARAM_SIZE: nat := 32

  /** The range of `size_t`. */
  const WORD: nat := 0x1_0000_0000

  /** What the terminal asks its driver for. */
  datatype Command =
    | Set8(fore: bool, bright: bool, colour: nat)
    | Set256(fore: bool, colour: nat)
    | SetRgb(fore: bool, r: nat, g: nat, b: nat)
    | Reset(fore: bool)

  // ---------------------------------------------------------------- numbers

  predicate IsDigit(c: char) { '0' <= c <= '9' }

  function DigitValue(c: char): nat
    requires IsDigit(c)
  {
    (c - '0') as nat
  }

  function Digit(d: nat): (c: char)
    requires d < 10
    ensures IsDigit(c) && DigitValue(c) == d
  {
    '0' + d as char
  }

  /** The leading digits of a string: how many, and their value in 32 bits. */
  function ParseFrom(s: string, acc: nat): (r: (nat, nat))
    ensures r.0 <= |s|
  {
    if s == [] || !IsDigit(s[0]) then (0, acc)
    else
      var rest := ParseFrom(s[1..], (acc * 10 + DigitValue(s[0])) % WORD);
      (rest.0 + 1, rest.1)
  }

  function ParseDec(s: string): (r: (nat, nat))
    ensures r.0 <= |s|
  {
    ParseFrom(s, 0)
  }

  function Dec(n: nat): (s: string)
    ensures |s| > 0 && forall i :: 0 <= i < |s| ==> IsDigit(s[i])
  {
    if n < 10 then [Digit(n)] else Dec(n / 10) + [Digit(n % 10)]
  }

  ghost predicate EndsNumber(rest: string) { rest == [] || !IsDigit(rest[0]) }

  lemma {:induction false} ParseAppends(s: string, d: nat, rest: string, acc: nat)
    requires d < 10 && EndsNumber(rest) && forall i :: 0 <= i < |s| ==> IsDigit(s[i])
    ensures ParseFrom(s + [Digit(d)] + rest, acc) == (|s| + 1, (ParseFrom(s, acc).1 * 10 + d) % WORD)
    ensures ParseFrom(s, acc).0 == |s|
  {
    var all := s + [Digit(d)] + rest;
    if s == [] {
      assert all[1..] == rest;
    } else {
      assert all[1..] == s[1..] + [Digit(d)] + rest;
      ParseAppends(s[1..], d, rest, (acc * 10 + DigitValue(s[0])) % WORD);
    }
  }

  lemma {:induction false} ParseAlone(s: string, rest: string, acc: nat)
    requires EndsNumber(rest) && forall i :: 0 <= i < |s| ==> IsDigit(s[i])
    ensures ParseFrom(s + rest, acc) == (|s|, ParseFrom(s, acc).1)
  {
    if s == [] {
      assert s + rest == rest;
    } else {
      assert (s + rest)[1..] == s[1..] + rest;
      ParseAlone(s[1..], rest, (acc * 10 + DigitValue(s[0])) % WORD);
    }
  }

  lemma DigitAdded(q: nat, d: nat)
    ensures (q % WORD * 10 + d) % WORD == (q * 10 + d) % WORD
  {
    var k, r := q / WORD, q % WORD;
    assert q * 10 + d == r * 10 + d + k * 10 * WORD;
    MultipleAdded(r * 10 + d, k * 10);
  }

  lemma {:induction false} MultipleAdded(a: nat, k: nat)
    ensures (a + k * WORD) % WORD == a % WORD
  {
    if k > 0 { MultipleAdded(a, k - 1); }
  }

  /** Reading a printed number gives it back, in 32 bits. */
  lemma {:induction false} ParsePrinted(n: nat, rest: string)
    requires EndsNumber(rest)
    ensures ParseDec(Dec(n) + rest) == (|Dec(n)|, n % 0x1_0000_0000)
  {
    if n < 10 {
      assert Dec(n) + rest == [] + [Digit(n)] + rest;
      ParseAppends([], n, rest, 0);
    } else {
      ParsePrinted(n / 10, []);
      assert Dec(n / 10) + [] == Dec(n / 10);
      assert Dec(n) + rest == Dec(n / 10) + [Digit(n % 10)] + rest;
      ParseAppends(Dec(n / 10), n % 10, rest, 0);
      DigitAdded(n / 10, n % 10);
    }
  }

  lemma ParseSmall(n: nat, rest: string)
    requires n < WORD && EndsNumber(rest)
    ensures ParseDec(Dec(n) + rest) == (|Dec(n)|, n)
  {
    ParsePrinted(n, rest);
  }

  // ---------------------------------------------------------------- colours

  /** What is left after k characters and a separator. */
  function Past(s: string, k: nat): string {
    if k + 1 <= |s| then s[k + 1..] else []
  }

  /** A number that more numbers must follow. */
  function Number(s: string, more: bool): Option<(nat, string)> {
    var (k, num) := ParseDec(s);
    if k == 0 || (more && Past(s, k) == []) then None else Some((num, Past(s, k)))
  }

  /** The rest of a 256-colour or RGB sequence. */
  function Extended(s: string, fore: bool): Option<(Command, string)> {
    match Number(s, true)
    case None => None
    case Some((kind, s1)) =>
      if kind == 2 then
        match Number(s1, true) {
          case None => None
          case Some((r, s2)) =>
            match Number(s2, true) {
              case None => None
              case Some((g, s3)) =>
                match Number(s3, false) {
                  case None => None
                  case Some((b, s4)) => Some((SetRgb(fore, r, g, b), s4))
                }
            }
        }
      else if kind == 5 then
        match Number(s1, false) {
          case None => None
          case Some((colour, s2)) => Some((Set256(fore, colour % 256), s2))
        }
      else None
  }

  /** The command that a single number stands for. */
  function Single(num: nat): Option<Command> {
    if 30 <= num <= 37 then Some(Set8(true, false, num - 30))
    else if 40 <= num <= 47 then Some(Set8(false, false, num - 40))
    else if 90 <= num <= 97 then Some(Set8(true, true, num - 90))
    else if 100 <= num <= 107 then Some(Set8(false, true, num - 100))
    else if num == 39 then Some(Reset(true))
    else if num == 49 then Some(Reset(false))
    else None
  }

  lemma NumberShorter(s: string, more: bool)
    ensures Number(s, more).Some? ==> |Number(s, more).value.1| < |s|
  {
  }

  lemma ExtendedShorter(s: string, fore: bool)
    ensures Extended(s, fore).Some? ==> |Extended(s, fore).value.1| < |s|
  {
    NumberShorter(s, true);
    if Number(s, true).Some? {
      var s1 := Number(s, true).value.1;
      NumberShorter(s1, true);
      NumberShorter(s1, false);
      if Number(s1, true).Some? {
        var s2 := Number(s1, true).value.1;
        NumberShorter(s2, true);
        if Number(s2, true).Some? { NumberShorter(Number(s2, true).value.1, false); }
      }
    }
  }

  /** The commands that the first number, or numbers, of a parameter string stand for, and the rest to read. A zero
      resets both colours only as the last number; nothing is read after numbers that make no sense. */
  function First(s: string): (seq<Command>, string) {
    match Number(s, false)
    case None => ([], [])
    case Some((num, rest)) =>
      if num == 0 && rest == [] then ([Reset(false), Reset(true)], [])
      else if num == 38 || num == 48 then
        match Extended(rest, num == 38) {
          case None => ([], [])
          case Some((cmd, rest')) => ([cmd], rest')
        }
      else if Single(num).Some? then ([Single(num).value], rest)
      else ([], rest)
  }

  lemma FirstShorter(s: string)
    requires s != []
    ensures |First(s).1| < |s|
  {
    NumberShorter(s, false);
    match Number(s, false) {
      case None =>
      case Some((num, rest)) => ExtendedShorter(rest, num == 38);
    }
  }

  /** The commands of a parameter string. */
  function Interpret(s: string): seq<Command>
    decreases |s|
  {
    if s == [] then []
    else
      FirstShorter(s);
      First(s).0 + Interpret(First(s).1)
  }

  lemma InterpretFirst(s: string)
    ensures Interpret(s) == First(s).0 + Interpret(First(s).1)
  {
  }

  // ---------------------------------------------------------------- printing colours

  /** The commands that can be written, with what fits their numbers. */
  predicate Printable(c: Command) {
    match c
    case Set8(_, _, colour) => colour < 8
    case Set256(_, colour) => colour < 256
    case SetRgb(_, r, g, b) => r < 256 && g < 256 && b < 256
    case Reset(_) => true
  }

  function Print(c: Command): string {
    match c
    case Set8(fore, bright, colour) => Dec((if bright then 90 else 30) + (if fore then 0 else 10) + colour)
    case Set256(fore, colour) => Dec(if fore then 38 else 48) + ";" + (Dec(5) + ";" + Dec(colour))
    case SetRgb(fore, r, g, b) =>
      Dec(if fore then 38 else 48) + ";" + (Dec(2) + ";" + (Dec(r) + ";" + (Dec(g) + ";" + Dec(b))))
    case Reset(fore) => Dec(if fore then 39 else 49)
  }

  function PrintAll(cs: seq<Command>): string {
    if cs == [] then [] else if |cs| == 1 then Print(cs[0]) else Print(cs[0]) + ";" + PrintAll(cs[1..])
  }

  lemma PrintNotEmpty(c: Command)
    ensures |Print(c)| > 0
  {
  }

  /** What follows a printed command: nothing, or a separator and more. */
  function Tail(rest: string): string {
    if rest == [] then [] else ";" + rest
  }

  /** A printed number and what follows it. */
  lemma NumberPrinted(n: nat, rest: string, more: bool)
    requires n < WORD && (more ==> rest != [])
    ensures Number(Dec(n) + Tail(rest), more) == Some((n, rest))
  {
    ParseSmall(n, Tail(rest));
    var s := Dec(n) + Tail(rest);
    hide Dec, ParseDec;
    if rest != [] { assert s[|Dec(n)| + 1..] == rest; }
  }

  /** A number that is followed by a separator and a non-empty string. */
  lemma NumberThen(n: nat, rest: string, more: bool)
    requires n < WORD && rest != []
    ensures Number(Dec(n) + ";" + rest, more) == Some((n, rest))
  {
    NumberPrinted(n, rest, more);
    assert Dec(n) + Tail(rest) == Dec(n) + ";" + rest;
  }

  lemma ExtendedPrinted(c: Command, rest: string)
    requires Printable(c) && (c.Set256? || c.SetRgb?)
    ensures var s := if c.Set256? then Dec(5) + ";" + Dec(c.colour)
                     else Dec(2) + ";" + (Dec(c.r) + ";" + (Dec(c.g) + ";" + Dec(c.b)));
            s + Tail(rest) != [] && Extended(s + Tail(rest), c.fore) == Some((c, rest))
  {
    hide Number, Dec;
    if c.Set256? {
      var last := Dec(c.colour) + Tail(rest);
      assert Dec(5) + ";" + Dec(c.colour) + Tail(rest) == Dec(5) + ";" + last;
      NumberThen(5, last, true);
      NumberPrinted(c.colour, rest, false);
    } else {
      var last := Dec(c.b) + Tail(rest);
      var green := Dec(c.g) + ";" + last;
      var red := Dec(c.r) + ";" + green;
      assert Dec(2) + ";" + (Dec(c.r) + ";" + (Dec(c.g) + ";" + Dec(c.b))) + Tail(rest) == Dec(2) + ";" + red;
      NumberThen(2, red, true);
      NumberThen(c.r, green, true);
      NumberThen(c.g, last, true);
      NumberPrinted(c.b, rest, false);
    }
  }

  /** A command that one number stands for. */
  lemma SinglePrinted(num: nat, c: Command, rest: string)
    requires num < WORD && num != 38 && num != 48 && Single(num) == Some(c)
    ensures Interpret(Dec(num) + Tail(rest)) == [c] + Interpret(rest)
  {
    hide Dec, Extended;
    NumberPrinted(num, rest, false);
    hide Number;
  }

  /** A command whose numbers follow a 38 or 48. */
  lemma ExtendedFirst(fore: bool, more: string, c: Command, rest: string)
    requires more != [] && Extended(more, fore) == Some((c, rest))
    ensures Interpret(Dec(if fore then 38 else 48) + ";" + more) == [c] + Interpret(rest)
  {
    hide Dec, Extended;
    NumberThen(if fore then 38 else 48, more, false);
    hide Number;
  }

  lemma Regroup(a: string, b: string, c: string)
    ensures a + ";" + b + c == a + ";" + (b + c)
  {
  }

  lemma PrintedFirst(c: Command, rest: string)
    requires Printable(c)
    ensures Interpret(Print(c) + Tail(rest)) == [c] + Interpret(rest)
  {
    hide Interpret, Extended, Dec, Tail;
    match c {
      case Set8(fore, bright, colour) =>
        SinglePrinted((if bright then 90 else 30) + (if fore then 0 else 10) + colour, c, rest);
      case Reset(fore) =>
        SinglePrinted(if fore then 39 else 49, c, rest);
      case Set256(fore, colour) =>
        ExtendedPrinted(c, rest);
        LongPrinted(fore, Dec(5) + ";" + Dec(colour), c, rest);
      case SetRgb(fore, r, g, b) =>
        ExtendedPrinted(c, rest);
        LongPrinted(fore, Dec(2) + ";" + (Dec(r) + ";" + (Dec(g) + ";" + Dec(b))), c, rest);
    }
  }

  lemma LongPrinted(fore: bool, more: string, c: Command, rest: string)
    requires more + Tail(rest) != [] && Extended(more + Tail(rest), fore) == Some((c, rest))
    ensures Interpret(Dec(if fore then 38 else 48) + ";" + more + Tail(rest)) == [c] + Interpret(rest)
  {
    hide Interpret, Extended, Dec, Tail;
    ExtendedFirst(fore, more + Tail(rest), c, rest);
    Regroup(Dec(if fore then 38 else 48), more, Tail(rest));
  }

  lemma InterpretNothing()
    ensures Interpret([]) == []
  {
  }

  /** Interpreting printed commands gives them back. */
  lemma {:induction false} InterpretPrinted(cs: seq<Command>)
    requires forall i :: 0 <= i < |cs| ==> Printable(cs[i])
    ensures Interpret(PrintAll(cs)) == cs
  {
    InterpretNothing();
    hide Interpret, Print, Number;
    if cs != [] {
      InterpretPrinted(cs[1..]);
      PrintedFirst(cs[0], PrintAll(cs[1..]));
      if |cs| > 1 { PrintNotEmpty(cs[1]); }
      assert PrintAll(cs) == Print(cs[0]) + Tail(PrintAll(cs[1..]));
      assert cs == [cs[0]] + cs[1..];
    }
  }

  // ---------------------------------------------------------------- other parameters

  /** A number other than those that stand for colours. */
  predicate Meaningless(n: nat) {
    !(30 <= n <= 49) && !(90 <= n <= 97) && !(100 <= n <= 107)
  }

  /** The numbers that stand for colours: eight of the foreground and of the background, normal and bright, and the
      defaults of both. */
  lemma SingleNumbers(k: nat)
    requires k < 8
    ensures Interpret(Dec(30 + k)) == [Set8(true, false, k)] && Interpret(Dec(40 + k)) == [Set8(false, false, k)]
    ensures Interpret(Dec(90 + k)) == [Set8(true, true, k)] && Interpret(Dec(100 + k)) == [Set8(false, true, k)]
    ensures Interpret(Dec(39)) == [Reset(true)] && Interpret(Dec(49)) == [Reset(false)]
  {
    OneNumber(30 + k, Set8(true, false, k));
    OneNumber(40 + k, Set8(false, false, k));
    OneNumber(90 + k, Set8(true, true, k));
    OneNumber(100 + k, Set8(false, true, k));
    OneNumber(39, Reset(true));
    OneNumber(49, Reset(false));
  }

  lemma OneNumber(n: nat, c: Command)
    requires n < WORD && n != 38 && n != 48 && Single(n) == Some(c)
    ensures Interpret(Dec(n)) == [c]
  {
    InterpretNothing();
    hide Interpret, Dec, Single;
    SinglePrinted(n, c, []);
    assert Dec(n) + Tail([]) == Dec(n);
  }

  /** A zero, or another number that stands for nothing, is skipped if more follows. At the end a zero resets the
      background and then the foreground, and any other such number does nothing. */
  lemma SkippedNumber(n: nat, rest: string)
    requires n < WORD && Meaningless(n)
    ensures rest != [] ==> Interpret(Dec(n) + ";" + rest) == Interpret(rest)
    ensures Interpret(Dec(n)) == if n == 0 then [Reset(false), Reset(true)] else []
  {
    InterpretNothing();
    hide Dec, Extended, ParseDec;
    if rest != [] { NumberThen(n, rest, false); }
    NumberPrinted(n, [], false);
    assert Dec(n) + Tail([]) == Dec(n);
    hide Number;
    InterpretFirst(Dec(n));
    InterpretFirst(Dec(n) + ";" + rest);
  }

  /** So after any commands. */
  lemma {:induction false} NumberAfter(cs: seq<Command>, n: nat)
    requires n < WORD && Meaningless(n) && cs != [] && forall i :: 0 <= i < |cs| ==> Printable(cs[i])
    ensures Interpret(PrintAll(cs) + ";" + Dec(n)) == cs + if n == 0 then [Reset(false), Reset(true)] else []
  {
    var end := if n == 0 then [Reset(false), Reset(true)] else [];
    SkippedNumber(n, []);
    AllPrinted(cs);
    hide Interpret, Print, PrintAll, Dec, Printable;
    if |cs| == 1 {
      AfterFirst(cs[0], Dec(n));
      assert cs + end == [cs[0]] + end;
    } else {
      NumberAfter(cs[1..], n);
      PrependPrinted(cs[0], PrintAll(cs[1..]), Dec(n), cs[1..] + end);
      FirstAndRest(cs, end);
    }
  }

  lemma FirstAndRest(cs: seq<Command>, end: seq<Command>)
    requires cs != []
    ensures [cs[0]] + (cs[1..] + end) == cs + end
  {
  }

  lemma PrependPrinted(c: Command, rest: string, tail: string, all: seq<Command>)
    requires Printable(c) && Interpret(rest + ";" + tail) == all
    ensures Interpret(Print(c) + ";" + rest + ";" + tail) == [c] + all
  {
    hide Interpret, Print;
    AfterFirst(c, rest + ";" + tail);
    SameString(Print(c), rest, tail);
  }

  lemma AllPrinted(cs: seq<Command>)
    requires cs != []
    ensures PrintAll(cs) == if |cs| == 1 then Print(cs[0]) else Print(cs[0]) + ";" + PrintAll(cs[1..])
  {
  }

  lemma AfterFirst(c: Command, more: string)
    requires Printable(c) && more != []
    ensures Interpret(Print(c) + ";" + more) == [c] + Interpret(more)
  {
    hide Interpret, Print;
    PrintedFirst(c, more);
    assert Print(c) + ";" + more == Print(c) + Tail(more);
  }

  lemma SameString(a: string, b: string, c: string)
    ensures a + ";" + b + ";" + c == a + ";" + (b + ";" + c)
  {
  }

  /** Colour numbers beyond 255 are cut to 8 bits; the components of a colour are passed on as they are. */
  lemma ExtendedNumbers(fore: bool, r: nat, g: nat, b: nat)
    requires r < WORD && g < WORD && b < WORD
    ensures Interpret(Dec(if fore then 38 else 48) + ";" + (Dec(5) + ";" + Dec(r))) == [Set256(fore, r % 256)]
    ensures Interpret(Dec(if fore then 38 else 48) + ";" + (Dec(2) + ";" + (Dec(r) + ";" + (Dec(g) + ";" + Dec(b)))))
         == [SetRgb(fore, r, g, b)]
  {
    InterpretNothing();
    hide Number, Dec, Interpret;
    assert Dec(r) + Tail([]) == Dec(r) && Dec(b) + Tail([]) == Dec(b);
    NumberThen(5, Dec(r), true);
    NumberPrinted(r, [], false);
    ExtendedFirst(fore, Dec(5) + ";" + Dec(r), Set256(fore, r % 256), []);
    NumberThen(2, Dec(r) + ";" + (Dec(g) + ";" + Dec(b)), true);
    NumberThen(r, Dec(g) + ";" + Dec(b), true);
    NumberThen(g, Dec(b), true);
    NumberPrinted(b, [], false);
    ExtendedFirst(fore, Dec(2) + ";" + (Dec(r) + ";" + (Dec(g) + ";" + Dec(b))), SetRgb(fore, r, g, b), []);
  }

  /** A 38 or 48 whose numbers are missing, or of another kind than 2 and 5, ends the reading: nothing is done. */
  lemma ExtendedCut(fore: bool, kind: nat, r: nat, g: nat, rest: string)
    requires kind < WORD && r < WORD && g < WORD
    ensures Interpret(Dec(if fore then 38 else 48) + ";" + Dec(kind)) == []
    ensures Interpret(Dec(if fore then 38 else 48) + ";" + (Dec(2) + ";" + Dec(r))) == []
    ensures Interpret(Dec(if fore then 38 else 48) + ";" + (Dec(2) + ";" + (Dec(r) + ";" + Dec(g)))) == []
    ensures kind != 2 && kind != 5 && rest != [] ==>
      Interpret(Dec(if fore then 38 else 48) + ";" + (Dec(kind) + ";" + rest)) == []
  {
    hide Dec, Interpret, ParseDec;
    NumberMissing(kind);
    NothingCut(fore, Dec(kind));
    NumberMissing(r);
    NumberThen(2, Dec(r), true);
    NothingCut(fore, Dec(2) + ";" + Dec(r));
    NumberThen(2, Dec(r) + ";" + Dec(g), true);
    NumberThen(r, Dec(g), true);
    NumberMissing(g);
    NothingCut(fore, Dec(2) + ";" + (Dec(r) + ";" + Dec(g)));
    if kind != 2 && kind != 5 && rest != [] {
      NumberThen(kind, rest, true);
      NothingCut(fore, Dec(kind) + ";" + rest);
    }
  }

  lemma NumberMissing(n: nat)
    ensures Number(Dec(n), true) == None
  {
    ParsePrinted(n, []);
    assert Dec(n) + [] == Dec(n);
  }

  lemma NothingCut(fore: bool, more: string)
    requires more != [] && Extended(more, fore) == None
    ensures Interpret(Dec(if fore then 38 else 48) + ";" + more) == []
  {
    InterpretNothing();
    hide Dec, Extended;
    NumberThen(if fore then 38 else 48, more, false);
    hide Number;
    InterpretFirst(Dec(if fore then 38 else 48) + ";" + more);
  }

  /** A parameter string that does not start with a digit does nothing. */
  lemma NoNumber(s: string)
    requires EndsNumber(s)
    ensures Interpret(s) == []
  {
    InterpretNothing();
    InterpretFirst(s);
  }

  // ---------------------------------------------------------------- the state machine

  datatype Mode = Idle | Escape | Bracket

  /** What comes out: a character for the screen, a colour command, or another control sequence, whose
      handling is not part of this model. */
  datatype Output = Glyph(c: char) | Colour(command: Command) | Control(last: char, params: string)

  datatype State = State(mode: Mode, params: string, out: seq<Output>)

  predicate OtherFinal(c: char) { c in "HfABCDEFGJK" }

  function Colours(cs: seq<Command>): (r: seq<Output>)
    ensures |r| == |cs| && forall i :: 0 <= i < |r| ==> r[i] == Colour(cs[i])
  {
    seq(|cs|, i requires 0 <= i < |cs| => Colour(cs[i]))
  }

  /** Of the commands `all`, those `done` came out after `before`, and those `left` are still to come. */
  ghost predicate SoFar(before: seq<Output>, now: seq<Output>, done: seq<Command>, left: seq<Command>,
                        all: seq<Command>)
  {
    now == before + Colours(done) && done + left == all
  }

  lemma StartSoFar(out: seq<Output>, all: seq<Command>)
    ensures SoFar(out, out, [], all, all)
  {
  }

  lemma MoreSoFar(before: seq<Output>, now: seq<Output>, done: seq<Command>, more: seq<Command>, left: seq<Command>,
                  all: seq<Command>)
    requires SoFar(before, now, done, more + left, all)
    ensures SoFar(before, now + Colours(more), done + more, left, all)
  {
    assert before + Colours(done) + Colours(more) == before + Colours(done + more);
    assert done + (more + left) == done + more + left;
  }

  lemma AllDone(before: seq<Output>, now: seq<Output>, done: seq<Command>, all: seq<Command>)
    requires SoFar(before, now, done, [], all)
    ensures now == before + Colours(all)
  {
    assert done + [] == done;
  }

  function Glyphs(s: string): (r: seq<Output>)
    ensures |r| == |s| && forall i :: 0 <= i < |r| ==> r[i] == Glyph(s[i])
  {
    seq(|s|, i requires 0 <= i < |s| => Glyph(s[i]))
  }

  /** One character; `room` says whether the screen takes a second one after an escape that starts nothing. */
  function Next(st: State, c: char, room: bool): State {
    match st.mode
    case Idle => if c == ESC then st.(mode := Escape) else st.(out := st.out + [Glyph(c)])
    case Escape =>
      if c == '[' then st.(mode := Bracket, params := [])
      else st.(out := st.out + [Glyph(ESC)] + if room then [Glyph(c)] else [])
    case Bracket =>
      if OtherFinal(c) then st.(mode := Idle, out := st.out + [Control(c, st.params)])
      else if c == 'm' then st.(mode := Idle, out := st.out + Colours(Interpret(st.params)))
      else if |st.params| >= PARAM_SIZE then st.(mode := Idle)
      else st.(params := st.params + [c])
  }

  function Fed(st: State, s: string): State
    decreases |s|
  {
    if s == [] then st else Fed(Next(st, s[0], true), s[1..])
  }

  lemma {:induction false} FedSplit(st: State, a: string, b: string)
    ensures Fed(st, a + b) == Fed(Fed(st, a), b)
    decreases |a|
  {
    if a == [] {
      assert a + b == b;
    } else {
      FedSplit(Next(st, a[0], true), a[1..], b);
      assert (a + b)[1..] == a[1..] + b;
    }
  }

  /** Parameter characters: digits and separators. */
  ghost predicate Params(s: string) {
    forall i :: 0 <= i < |s| ==> IsDigit(s[i]) || s[i] == ';'
  }

  /** Within a sequence all characters but those that end it are taken for parameters, an escape included. */
  ghost predicate Collects(s: string) {
    forall i :: 0 <= i < |s| ==> s[i] !in "HfABCDEFGJKm"
  }

  lemma {:induction false} Collected(st: State, s: string)
    requires st.mode == Bracket && Collects(s) && |st.params| + |s| <= PARAM_SIZE
    ensures Fed(st, s) == st.(params := st.params + s)
    decreases |s|
  {
    if s == [] {
      assert st.params + s == st.params;
    } else {
      Collected(Next(st, s[0], true), s[1..]);
      assert st.params + [s[0]] + s[1..] == st.params + s;
    }
  }

  lemma {:induction false} Shown(st: State, s: string)
    requires st.mode == Idle && forall i :: 0 <= i < |s| ==> s[i] != ESC
    ensures Fed(st, s) == st.(out := st.out + Glyphs(s))
    decreases |s|
  {
    if s == [] {
      assert st.out + Glyphs(s) == st.out;
    } else {
      Shown(Next(st, s[0], true), s[1..]);
      assert st.out + [Glyph(s[0])] + Glyphs(s[1..]) == st.out + Glyphs(s);
    }
  }

  function Sequence(params: string): string { [ESC, '['] + params + "m" }

  /** A sequence whose parameters fit performs them; a longer one is given up at the first parameter too many, and
      the rest of it appears on the screen. */
  lemma FedSequence(st: State, params: string)
    requires st.mode == Idle && Params(params)
    ensures |params| <= 32 ==>
              Fed(st, Sequence(params)) == st.(params := params, out := st.out + Colours(Interpret(params)))
    ensures |params| > 32 ==>
              Fed(st, Sequence(params))
                == st.(params := params[..32], out := st.out + Glyphs(params[32 + 1..] + "m"))
  {
    var st2 := st.(mode := Bracket, params := []);
    assert Sequence(params)[1..][1..] == params + "m";
    assert Fed(st, Sequence(params)) == Fed(st2, params + "m");
    if |params| <= PARAM_SIZE {
      FedFits(st2, params);
    } else {
      FedTooLong(st2, params);
    }
  }

  lemma FedFits(st: State, params: string)
    requires st.mode == Bracket && st.params == [] && Params(params) && |params| <= PARAM_SIZE
    ensures Fed(st, params + "m") == st.(mode := Idle, params := params, out := st.out + Colours(Interpret(params)))
  {
    FedSplit(st, params, "m");
    Collected(st, params);
    var collected := st.(params := params);
    assert [] + params == params;
    assert Fed(collected, "m") == Fed(Next(collected, 'm', true), []) by { assert "m"[1..] == []; }
  }

  lemma FedTooLong(st: State, params: string)
    requires st.mode == Bracket && st.params == [] && Params(params) && |params| > PARAM_SIZE
    ensures Fed(st, params + "m")
         == st.(mode := Idle, params := params[..PARAM_SIZE], out := st.out + Glyphs(params[PARAM_SIZE + 1..] + "m"))
  {
    var head, last, rest := params[..PARAM_SIZE], params[PARAM_SIZE], params[PARAM_SIZE + 1..] + "m";
    assert params + "m" == head + ([last] + rest);
    FedSplit(st, head, [last] + rest);
    Collected(st, head);
    var full := st.(params := head);
    assert [] + head == head;
    assert ([last] + rest)[1..] == rest;
    assert Fed(full, [last] + rest) == Fed(full.(mode := Idle), rest);
    Shown(full.(mode := Idle), rest);
  }

  /** The usual reset. */
  lemma ResetSequence(st: State)
    requires st.mode == Idle
    ensures Fed(st, Sequence("0")) == st.(params := "0", out := st.out + [Colour(Reset(false)), Colour(Reset(true))])
    ensures Sequence("0") == [ESC] + "[0m"
  {
    ZeroPrinted();
    SkippedNumber(0, []);
    FedSequence(st, "0");
    assert Colours([Reset(false), Reset(true)]) == [Colour(Reset(false)), Colour(Reset(true))];
  }

  /** A sequence of printed commands that ends in a zero performs them and then resets both colours. */
  lemma ResetAfter(st: State, cs: seq<Command>)
    requires st.mode == Idle && cs != [] && forall i :: 0 <= i < |cs| ==> Printable(cs[i])
    requires |PrintAll(cs)| + 2 <= 32
    ensures Fed(st, Sequence(PrintAll(cs) + ";0")).mode == Idle
    ensures Fed(st, Sequence(PrintAll(cs) + ";0")).out
         == st.out + Colours(cs) + [Colour(Reset(false)), Colour(Reset(true))]
  {
    ZeroPrinted();
    NumberAfter(cs, 0);
    PrintAllIsParams(cs);
    hide *;
    PerformedThenReset(st, PrintAll(cs), cs);
  }

  lemma ZeroPrinted()
    ensures Dec(0) == "0"
  {
    assert Digit(0) == '0';
  }

  lemma PerformedThenReset(st: State, params: string, cs: seq<Command>)
    requires st.mode == Idle && Params(params) && |params| + 2 <= 32
    requires Interpret(params + ";" + "0") == cs + [Reset(false), Reset(true)]
    ensures Fed(st, Sequence(params + ";0")).mode == Idle
    ensures Fed(st, Sequence(params + ";0")).out
         == st.out + Colours(cs) + [Colour(Reset(false)), Colour(Reset(true))]
  {
    hide Interpret, Fed;
    assert params + ";0" == params + ";" + "0";
    FedSequence(st, params + ";0");
    assert Colours(cs + [Reset(false), Reset(true)]) == Colours(cs) + [Colour(Reset(false)), Colour(Reset(true))];
    assert st.out + Colours(cs + [Reset(false), Reset(true)])
        == st.out + Colours(cs) + [Colour(Reset(false)), Colour(Reset(true))];
  }

  /** An escape that is not followed by a bracket is shown, with the character after it if there is room for that; the
      terminal goes on as after an escape. */
  lemma EscapeShown(st: State, c: char, room: bool)
    requires st.mode == Idle && c != '['
    ensures var next := Next(Next(st, ESC, true), c, room);
            next.mode == Escape && next.out == st.out + [Glyph('\U{001B}')] + if room then [Glyph(c)] else []
    ensures Next(Next(st, ESC, true), '[', room) == st.(mode := Bracket, params := [])
  {
  }

  /** Cursor and erase sequences come out as they are, and end the sequence. */
  lemma ControlSequence(st: State, params: string, last: char)
    requires st.mode == Idle && Collects(params) && |params| <= 32 && last in "HfABCDEFGJK"
    ensures Fed(st, [ESC, '['] + params + [last]) == st.(params := params, out := st.out + [Control(last, params)])
  {
    var st2 := st.(mode := Bracket, params := []);
    assert ([ESC, '['] + params + [last])[1..][1..] == params + [last];
    assert Fed(st, [ESC, '['] + params + [last]) == Fed(st2, params + [last]);
    FedSplit(st2, params, [last]);
    Collected(st2, params);
    var collected := st2.(params := params);
    assert [] + params == params;
    assert Fed(collected, [last]) == Fed(Next(collected, last, true), []) by { assert [last][1..] == []; }
  }

  lemma {:induction false} PrintIsParams(c: Command)
    ensures Params(Print(c))
  {
  }

  lemma {:induction false} PrintAllIsParams(cs: seq<Command>)
    ensures Params(PrintAll(cs))
  {
    if |cs| > 0 {
      PrintIsParams(cs[0]);
      PrintAllIsParams(cs[1..]);
    }
  }

  /** Printing colour commands as a sequence and feeding it to an idle terminal performs exactly those commands in
      order, shows nothing and comes back to idle; exactly if the sequence has no more than 32 parameter characters. */
  lemma SequenceRoundTrip(st: State, cs: seq<Command>)
    requires st.mode == Idle && cs != [] && forall i :: 0 <= i < |cs| ==> Printable(cs[i])
    ensures Fed(st, Sequence(PrintAll(cs))).mode == Idle
    ensures Fed(st, Sequence(PrintAll(cs))).out == st.out + Colours(cs) <==> |PrintAll(cs)| <= PARAM_SIZE
  {
    var params := PrintAll(cs);
    PrintAllIsParams(cs);
    InterpretPrinted(cs);
    FedSequence(st, params);
    if |params| > PARAM_SIZE {
      var glyphs := Glyphs(params[PARAM_SIZE + 1..] + "m");
      assert (st.out + glyphs)[|st.out|] == glyphs[0] && (st.out + Colours(cs))[|st.out|] == Colours(cs)[0];
    }
  }

  class Terminal {
    var mode: Mode
    const paramBuf: array<char>
    var paramIdx: nat
    var out: seq<Output>

    ghost predicate Valid()
      reads this
    {
      paramBuf.Length == PARAM_SIZE && paramIdx <= PARAM_SIZE
    }

    ghost function Abs(): State
      requires Valid()
      reads this, paramBuf
    {
      State(mode, paramBuf[..paramIdx], out)
    }

    constructor ()
      ensures Valid() && Abs() == State(Idle, [], []) && fresh(paramBuf)
    {
      mode, paramBuf, paramIdx, out := Idle, new char[PARAM_SIZE], 0, [];
    }

    /** Reads a number from the parameters. */
    method ReadDec(idx: nat) returns (delta: nat, num: nat)
      requires Valid() && idx <= paramIdx
      ensures (delta, num) == ParseDec(paramBuf[idx..paramIdx])
    {
      num := 0;
      var i := idx;
      ghost var s := paramBuf[idx..paramIdx];
      while i < paramIdx && IsDigit(paramBuf[i])
        invariant idx <= i <= paramIdx
        invariant ParseDec(s)
          == (i - idx + ParseFrom(paramBuf[i..paramIdx], num).0, ParseFrom(paramBuf[i..paramIdx], num).1)
      {
        assert paramBuf[i..paramIdx][1..] == paramBuf[i + 1..paramIdx];
        num := (num * 10 + DigitValue(paramBuf[i])) % WORD;
        i := i + 1;
      }
      delta := i - idx;
    }

    /** A number that more numbers must follow, if `more`, and the index after it and its separator. Beyond the
        parameters nothing is read. */
    method ReadNumber(idx: nat, more: bool) returns (r: Option<(nat, nat)>)
      requires Valid()
      ensures Number(Left(idx), more) == if r.None? then None else Some((r.value.0, Left(r.value.1)))
      ensures r.Some? ==> idx < r.value.1
    {
      if idx > paramIdx { return None; }
      var delta, num := ReadDec(idx);
      if delta == 0 { return None; }
      var next := idx + delta + 1;
      if more && next >= paramIdx { return None; }
      assert next <= paramIdx ==> paramBuf[idx..paramIdx][delta + 1..] == paramBuf[next..paramIdx];
      r := Some((num, next));
    }

    /** The parameters from an index on. */
    ghost function Left(idx: nat): string
      requires Valid()
      reads this, paramBuf
    {
      if idx <= paramIdx then paramBuf[idx..paramIdx] else []
    }

    /** The rest of a 256-colour or RGB sequence. */
    method ReadExtended(idx: nat, fore: bool) returns (r: Option<(Command, nat)>)
      requires Valid()
      ensures Extended(Left(idx), fore) == if r.None? then None else Some((r.value.0, Left(r.value.1)))
      ensures r.Some? ==> idx < r.value.1
    {
      hide Number;
      var kind := ReadNumber(idx, true);
      if kind.None? { return None; }
      if kind.value.0 == 2 {
        var red := ReadNumber(kind.value.1, true);
        if red.None? { return None; }
        var green := ReadNumber(red.value.1, true);
        if green.None? { return None; }
        var blue := ReadNumber(green.value.1, false);
        if blue.None? { return None; }
        r := Some((SetRgb(fore, red.value.0, green.value.0, blue.value.0), blue.value.1));
      } else if kind.value.0 == 5 {
        var colour := ReadNumber(kind.value.1, false);
        if colour.None? { return None; }
        r := Some((Set256(fore, colour.value.0 % 256), colour.value.1));
      } else {
        r := None;
      }
    }

    /** Performs the command at an index; returns where to go on, unless the parameters end or make no sense. */
    method Perform(idx: nat) returns (next: Option<nat>)
      requires Valid()
      modifies this`out
      ensures out == old(out) + Colours(First(Left(idx)).0)
      ensures First(Left(idx)).1 == if next.None? then [] else Left(next.value)
      ensures next.Some? ==> idx < next.value
    {
      hide Number, Extended, Single;
      var n := ReadNumber(idx, false);
      if n.None? {
        assert out == out + Colours([]);
        return None;
      }
      var num, after := n.value.0, n.value.1;
      if num == 0 && after >= paramIdx {
        out := out + [Colour(Reset(false)), Colour(Reset(true))];
        return None;
      }
      if num == 38 || num == 48 {
        var e := ReadExtended(after, num == 38);
        if e.None? {
          assert out == out + Colours([]);
          return None;
        }
        out := out + [Colour(e.value.0)];
        return Some(e.value.1);
      }
      if Single(num).Some? {
        out := out + [Colour(Single(num).value)];
      } else {
        assert out == out + Colours([]);
      }
      next := Some(after);
    }

    /** Performs the commands of the parameters. */
    method SetColour()
      requires Valid()
      modifies this`out
      ensures out == old(out) + Colours(Interpret(paramBuf[..paramIdx]))
    {
      ghost var all, before := Interpret(paramBuf[..paramIdx]), out;
      ghost var done: seq<Command> := [];
      assert Left(0) == paramBuf[..paramIdx];
      assert Left(paramIdx) == [];
      InterpretNothing();
      StartSoFar(out, all);
      hide Interpret, First, Colours, SoFar, Left;
      var idx := 0;
      while idx < paramIdx
        invariant SoFar(before, out, done, Interpret(Left(idx)), all)
        invariant idx >= paramIdx ==> Left(idx) == []
        decreases paramIdx - idx
      {
        ghost var first := First(Left(idx));
        InterpretFirst(Left(idx));
        ghost var now := out;
        var next := Perform(idx);
        MoreSoFar(before, now, done, first.0, Interpret(first.1), all);
        done := done + first.0;
        if next.None? {
          AllDone(before, out, done, all);
          return;
        }
        idx := next.value;
        NothingLeft(idx);
      }
      AllDone(before, out, done, all);
    }

    lemma NothingLeft(idx: nat)
      requires Valid()
      ensures idx >= paramIdx ==> Left(idx) == []
    {
    }

    /** A character written to the terminal. */
    method Write(c: char, room: bool)
      requires Valid()
      modifies this, paramBuf
      ensures Valid() && Abs() == Next(old(Abs()), c, room)
    {
      hide Interpret;
      match mode {
        case Idle =>
          if c == ESC { mode := Escape; } else { out := out + [Glyph(c)]; }
        case Escape =>
          if c == '[' {
            mode := Bracket;
            paramIdx := 0;
          } else {
            out := out + [Glyph(ESC)];
            if room { out := out + [Glyph(c)]; }
          }
        case Bracket =>
          if OtherFinal(c) {
            out := out + [Control(c, paramBuf[..paramIdx])];
            mode := Idle;
          } else if c == 'm' {
            SetColour();
            mode := Idle;
          } else if paramIdx >= PARAM_SIZE {
            mode := Idle;
          } else {
            paramBuf[paramIdx] := c;
            paramIdx := paramIdx + 1;
          }
      }
    }

    /** Any string written to a terminal whose screen has room. */
    method Feed(s: string)
      requires Valid()
      modifies this, paramBuf
      ensures Valid() && Abs() == Fed(old(Abs()), s)
    {
      hide Next;
      ghost var start := Abs();
      for i := 0 to |s|
        invariant Valid() && Fed(Abs(), s[i..]) == Fed(start, s)
      {
        assert s[i..][1..] == s[i + 1..];
        Write(s[i], true);
      }
    }
  }
}
