/**
 * The menu and the selection / continue loop of showmethebit's `main`.
 *
 * The program prints a banner listing the ten supported types, then loops:
 * it reads a selection; a failed parse, the quit sentinel -1 and an option
 * outside 1..10 are handled at once; an option in range runs handler
 * opt - 1, which prompts for a value, reads it and prints its bits; the
 * program then asks whether to go on and reads one character.
 *
 * Console reading is replaced by a sequence of already-read tokens, and
 * everything written to standard output is one string (each println adds
 * "\n"). The value a handler reads is given as the raw bytes of its
 * storage.
 */
module Menu {
  import opened BitPrinter

  // ---------------------------------------------------------------------
  // The type table
  // ---------------------------------------------------------------------

  /** The types the handler table is instantiated with, in menu order. */
  datatype Prim =
    | Int | Long | Short | Char | Float | Double
    | UnsignedInt | UnsignedLong | UnsignedShort | UnsignedChar

  /** How C++ spells each type. */
  function Spelling(t: Prim): string
  {
    match t
    case Int => "int"
    case Long => "long"
    case Short => "short"
    case Char => "char"
    case Float => "float"
    case Double => "double"
    case UnsignedInt => "unsigned int"
    case UnsignedLong => "unsigned long"
    case UnsignedShort => "unsigned short"
    case UnsignedChar => "unsigned char"
  }

  /** The names the menu shows, in order. */
  const TypeNames: seq<string> := [
    "int", "long", "short", "char", "float", "double",
    "unsigned int", "unsigned long", "unsigned short", "unsigned char"]

  /** The handler table: handler i reads and prints a value of type Handlers[i]. */
  const Handlers: seq<Prim> := [
    Int, Long, Short, Char, Float, Double,
    UnsignedInt, UnsignedLong, UnsignedShort, UnsignedChar]

  /** The name list and the handler list agree index for index. */
  lemma TablesAgree()
    ensures |TypeNames| == |Handlers| == 10
    ensures forall i | 0 <= i < |Handlers| :: TypeNames[i] == Spelling(Handlers[i])
  {
  }

  // ---------------------------------------------------------------------
  // The banner
  // ---------------------------------------------------------------------

  const Title := "Choose a type(or -1 to quit):"

  function DigitChar(d: nat): (c: char)
    requires d < 10
    ensures '0' <= c <= '9' && c as int - '0' as int == d
  {
    "0123456789"[d]
  }

  /**
   * The decimal numeral of n, as std::format writes a non-negative int:
   * digits only, with no leading zero.
   */
  function Decimal(n: nat): (s: string)
    ensures |s| >= 1 && (n > 0 ==> s[0] != '0')
    ensures forall k | 0 <= k < |s| :: '0' <= s[k] <= '9'
    decreases n
  {
    if n < 10 then [DigitChar(n)] else Decimal(n / 10) + [DigitChar(n % 10)]
  }

  /** The value of a string of decimal digits. */
  function ReadDecimal(s: string): int
  {
    if s == [] then 0
    else 10 * ReadDecimal(s[..|s| - 1]) + (s[|s| - 1] as int - '0' as int)
  }

  lemma {:induction false} ReadDecimalOfDecimal(n: nat)
    ensures ReadDecimal(Decimal(n)) == n
    decreases n
  {
    if n >= 10 {
      var s := Decimal(n);
      assert s[..|s| - 1] == Decimal(n / 10);
      ReadDecimalOfDecimal(n / 10);
    }
  }

  /** The menu line for option i: "(i) name". */
  function MenuEntry(i: nat): string
    requires 1 <= i <= |TypeNames|
  {
    "(" + Decimal(i) + ") " + TypeNames[i - 1]
  }

  /** The menu lines for options 1..i, in order. */
  function EntriesUpTo(i: nat): string
    requires i <= |TypeNames|
  {
    if i == 0 then "" else EntriesUpTo(i - 1) + MenuEntry(i) + "\n"
  }

  /** What the program prints before its first read. */
  function BannerText(): string
  {
    Title + "\n" + EntriesUpTo(|TypeNames|) + "\n"
  }

  /** The banner: the title, "(i) name" for i = 1..10 in table order, then a blank line. */
  method ShowMenu() returns (out: string)
    ensures out == BannerText()
  {
    var entries := "";
    for i := 1 to |TypeNames| + 1
      invariant entries == EntriesUpTo(i - 1)
    {
      entries := entries + MenuEntry(i) + "\n";
    }
    out := Title + "\n" + entries + "\n";
  }

  /** The menu lines for options 1..i come first in those for 1..j. */
  lemma {:induction false} EntriesPrefix(i: nat, j: nat)
    requires i <= j <= |TypeNames|
    ensures EntriesUpTo(i) <= EntriesUpTo(j)
    decreases j - i
  {
    if i < j {
      EntriesPrefix(i, j - 1);
    }
  }

  /** With n entries listed, entry i's line follows the lines of the entries before it. */
  lemma EntryFollows(i: nat, n: nat)
    requires 1 <= i <= n <= |TypeNames|
    ensures Title + "\n" + EntriesUpTo(i - 1) + MenuEntry(i) + "\n" <= Title + "\n" + EntriesUpTo(n) + "\n"
  {
    EntriesPrefix(i, n);
    PrefixLine(Title + "\n", EntriesUpTo(i - 1), MenuEntry(i), EntriesUpTo(n));
  }

  /** A line that starts a text still starts it after a common head, and before a final newline. */
  lemma PrefixLine(head: string, before: string, entry: string, all: string)
    requires before + entry + "\n" <= all
    ensures head + before + entry + "\n" <= head + all + "\n"
  {
    var x := before + entry + "\n";
    assert head + before + entry + "\n" == head + x;
    assert (head + all + "\n")[..|head| + |x|] == head + x;
  }

  /**
   * The banner is the title line, then for i = 1..10 the line "(i) name",
   * where i is written in decimal (and reads back as i) and name is the
   * spelling of the type handler i - 1 prints, each line after the lines
   * for 1..i-1.
   */
  lemma BannerEntry(i: nat)
    requires 1 <= i <= |TypeNames|
    ensures Title + "\n" + EntriesUpTo(i - 1) + MenuEntry(i) + "\n" <= BannerText()
    ensures MenuEntry(i) == "(" + Decimal(i) + ") " + Spelling(Handlers[i - 1])
    ensures ReadDecimal(Decimal(i)) == i
  {
    EntryNamesHandler(i);
    ReadDecimalOfDecimal(i);
    EntryFollows(i, |TypeNames|);
  }

  lemma EntryNamesHandler(i: nat)
    requires 1 <= i <= |TypeNames|
    ensures MenuEntry(i) == "(" + Decimal(i) + ") " + Spelling(Handlers[i - 1])
  {
    TablesAgree();
  }

  // ---------------------------------------------------------------------
  // The loop as a state machine
  // ---------------------------------------------------------------------

  /** A token the console hands to the prompt that reads it. */
  datatype Input =
    | Unparsed                      // the selection was not a decimal integer
    | Number(n: int)                // the selection's decimal integer, of any size
    | Value(storage: seq<byte>)     // the value a handler read, as its storage bytes
    | Letter(c: char)               // the answer to "Continue(or quit)?"

  datatype State =
    | AwaitSelection
    | AwaitValue(handler: nat)      // handler `handler` runs and is reading its value
    | AwaitChoice
    | Terminated

  /** The next state and what is printed on the way there. */
  datatype Transition = Transition(next: State, said: string)

  const InvalidInput := "Invalid input, please type again."
  const InvalidValue := "Invalid value, please type again."
  const ValuePrompt := "Then type a value: "
  const ContinuePrompt := "Continue(or quit)? (y/n)"
  const ChooseAgain := "Choose a type:"
  const InvalidChoice := "Invalid choice, continue to choose a type:"

  /** The range of `int opt`, assuming a 32-bit two's-complement int. */
  const INT_MIN: int := -0x8000_0000
  const INT_MAX: int := 0x7FFF_FFFF

  /**
   * Whether `cin >> opt` can store n. A numeral outside int's range sets
   * the stream's fail state, like text that is no integer at all.
   */
  predicate FitsInt(n: int)
  {
    INT_MIN <= n <= INT_MAX
  }

  /** The token kinds each state's prompt reads; a terminated program reads nothing. */
  predicate Reads(s: State, e: Input)
  {
    match s
    case AwaitSelection => e.Unparsed? || e.Number?
    case AwaitValue(_) => e.Value?
    case AwaitChoice => e.Letter?
    case Terminated => false
  }

  /**
   * One read of the loop and what the program does with it. Only a handler
   * leads to the continue prompt, a handler chosen is always an entry of
   * the table, and quitting prints nothing.
   */
  function Step(s: State, e: Input, bigEndian: bool): (r: Transition)
    requires Reads(s, e)
    ensures r.next == AwaitChoice <==> s.AwaitValue?
    ensures r.next.AwaitValue? ==> r.next.handler < |Handlers|
    ensures r.next == Terminated ==> r.said == ""
  {
    match s
    case AwaitSelection =>
      if e.Unparsed? || !FitsInt(e.n) then Transition(AwaitSelection, InvalidInput + "\n")
      else if e.n == -1 then Transition(Terminated, "")
      else if e.n < 1 || e.n > |Handlers| then Transition(AwaitSelection, InvalidValue + "\n")
      else Transition(AwaitValue(e.n - 1), ValuePrompt + "\n")
    case AwaitValue(_) =>
      Transition(AwaitChoice, PrintTypeText(e.storage, bigEndian) + "\n" + ContinuePrompt + "\n")
    case AwaitChoice =>
      if e.c == 'n' then Transition(Terminated, "")
      else if e.c == 'y' then Transition(AwaitSelection, ChooseAgain + "\n")
      else Transition(AwaitSelection, InvalidChoice + "\n")
  }

  /** The outcome of running from a state over some tokens: where it stopped, what it printed, how many tokens it read. */
  datatype Run = Run(final: State, said: string, used: nat)

  /**
   * Runs the loop from s over the tokens until the program terminates, the
   * tokens run out, or the next token is not of the kind the prompt reads.
   */
  function Exec(s: State, inputs: seq<Input>, bigEndian: bool): (r: Run)
    ensures r.used <= |inputs|
    decreases |inputs|
  {
    if inputs == [] || !Reads(s, inputs[0]) then Run(s, "", 0)
    else
      var t := Step(s, inputs[0], bigEndian);
      var rest := Exec(t.next, inputs[1..], bigEndian);
      Run(rest.final, t.said + rest.said, rest.used + 1)
  }

  /**
   * One read in the loop (the selection, a handler's value or the answer
   * to the continue prompt): what the program prints before its next read
   * and the state it moves to. A pass of the source's loop that runs a
   * handler is three such reads.
   */
  method Respond(state: State, e: Input, bigEndian: bool) returns (next: State, text: string)
    requires Reads(state, e)
    ensures Transition(next, text) == Step(state, e, bigEndian)
  {
    match state {
      case AwaitSelection =>
        if e.Unparsed? || !FitsInt(e.n) {
          next, text := AwaitSelection, InvalidInput + "\n";
        } else if e.n == -1 {
          next, text := Terminated, "";
        } else if e.n < 1 || e.n > |Handlers| {
          next, text := AwaitSelection, InvalidValue + "\n";
        } else {
          next, text := AwaitValue(e.n - 1), ValuePrompt + "\n";
        }
      case AwaitValue(_) =>
        var printed := PrintType(e.storage, bigEndian);
        next, text := AwaitChoice, printed + "\n" + ContinuePrompt + "\n";
      case AwaitChoice =>
        if e.c == 'n' {
          next, text := Terminated, "";
        } else if e.c == 'y' {
          next, text := AwaitSelection, ChooseAgain + "\n";
        } else {
          next, text := AwaitSelection, InvalidChoice + "\n";
        }
    }
  }

  /** Running from the k-th token is one step and then running from the next one. */
  lemma ExecFrom(s: State, inputs: seq<Input>, k: nat, bigEndian: bool)
    requires k < |inputs| && Reads(s, inputs[k])
    ensures var t := Step(s, inputs[k], bigEndian);
            var rest := Exec(t.next, inputs[k + 1..], bigEndian);
            Exec(s, inputs[k..], bigEndian) == Run(rest.final, t.said + rest.said, rest.used + 1)
  {
    assert inputs[k..][1..] == inputs[k + 1..];
  }

  /**
   * After one more step at token k, the run over all tokens is still what
   * has been printed so far followed by the run from the new state.
   */
  lemma ExecAdvance(whole: Run, state: State, inputs: seq<Input>, k: nat, said: string,
                    next: State, text: string, bigEndian: bool)
    requires k < |inputs| && Reads(state, inputs[k])
    requires Transition(next, text) == Step(state, inputs[k], bigEndian)
    requires var rest := Exec(state, inputs[k..], bigEndian);
             whole == Run(rest.final, said + rest.said, k + rest.used)
    ensures var rest := Exec(next, inputs[k + 1..], bigEndian);
            whole == Run(rest.final, (said + text) + rest.said, (k + 1) + rest.used)
  {
    ExecFrom(state, inputs, k, bigEndian);
    var rest := Exec(next, inputs[k + 1..], bigEndian);
    assert said + (text + rest.said) == (said + text) + rest.said;
  }

  /** A run from a state whose prompt cannot read the next token reads nothing. */
  lemma ExecStopped(state: State, inputs: seq<Input>, k: nat, bigEndian: bool)
    requires k <= |inputs|
    requires k == |inputs| || !Reads(state, inputs[k])
    ensures Exec(state, inputs[k..], bigEndian) == Run(state, "", 0)
  {
    assert inputs[k..] == [] || inputs[k..][0] == inputs[k];
  }

  /**
   * The `while (true)` loop over the tokens: what it printed, how many
   * tokens it read and the state it stopped in (Terminated after a `break`).
   */
  method Loop(inputs: seq<Input>, bigEndian: bool) returns (said: string, used: nat, state: State)
    ensures Exec(AwaitSelection, inputs, bigEndian) == Run(state, said, used)
  {
    state := AwaitSelection;
    used := 0;
    said := "";
    ghost var whole := Exec(AwaitSelection, inputs, bigEndian);
    assert inputs[0..] == inputs;
    assert "" + whole.said == whole.said;
    while used < |inputs| && Reads(state, inputs[used])
      invariant used <= |inputs|
      invariant var rest := Exec(state, inputs[used..], bigEndian);
                whole == Run(rest.final, said + rest.said, used + rest.used)
      decreases |inputs| - used
    {
      var next, text := Respond(state, inputs[used], bigEndian);
      ExecAdvance(whole, state, inputs, used, said, next, text, bigEndian);
      state, said, used := next, said + text, used + 1;
    }
    ExecStopped(state, inputs, used, bigEndian);
    assert said + "" == said;
  }

  /** The whole program: the banner, then the loop. */
  method Session(inputs: seq<Input>, bigEndian: bool) returns (out: string, used: nat, state: State)
    ensures var r := Exec(AwaitSelection, inputs, bigEndian);
            out == BannerText() + r.said && used == r.used && state == r.final
  {
    var banner := ShowMenu();
    var said;
    said, used, state := Loop(inputs, bigEndian);
    out := banner + said;
  }

  // ---------------------------------------------------------------------
  // Properties of the loop
  // ---------------------------------------------------------------------

  /**
   * At the selection prompt: a failed parse, or a numeral outside int's
   * range, reports "Invalid input" and stays; -1 quits silently (it is tested before the range, so it never
   * reports "Invalid value"); any other integer outside 1..10 reports
   * "Invalid value" and stays; an option in 1..10 runs handler opt - 1,
   * whose type is the one the menu lists as option opt.
   */
  lemma SelectionOutcomes(e: Input, bigEndian: bool)
    requires Reads(AwaitSelection, e)
    ensures var t := Step(AwaitSelection, e, bigEndian);
            ((e.Unparsed? || !FitsInt(e.n)) <==> t == Transition(AwaitSelection, InvalidInput + "\n"))
            && (e == Number(-1) <==> t == Transition(Terminated, ""))
            && ((e.Number? && FitsInt(e.n) && e.n != -1 && (e.n < 1 || e.n > 10))
                <==> t == Transition(AwaitSelection, InvalidValue + "\n"))
            && ((e.Number? && 1 <= e.n <= 10) <==> t.next.AwaitValue?)
    ensures var t := Step(AwaitSelection, e, bigEndian);
            t.next.AwaitValue? ==>
              t.next.handler == e.n - 1 && t.said == ValuePrompt + "\n"
              && MenuEntry(e.n) == "(" + Decimal(e.n) + ") " + Spelling(Handlers[t.next.handler])
  {
    TablesAgree();
    assert (InvalidInput + "\n")[8] == 'i' && (InvalidValue + "\n")[8] == 'v';
  }

  /**
   * At the continue prompt: 'n' quits; 'y' goes back to the selection
   * prompt with "Choose a type:"; any other character goes back too, with
   * "Invalid choice, continue to choose a type:".
   */
  lemma ChoiceOutcomes(c: char, bigEndian: bool)
    ensures var t := Step(AwaitChoice, Letter(c), bigEndian);
            (t.next == Terminated <==> c == 'n')
            && (t.next == AwaitSelection <==> c != 'n')
            && (t.said == "" <==> c == 'n')
            && (t.said == ChooseAgain + "\n" <==> c == 'y')
            && (t.said == InvalidChoice + "\n" <==> c != 'n' && c != 'y')
  {
    assert (ChooseAgain + "\n")[0] == 'C' && (InvalidChoice + "\n")[0] == 'I';
  }

  /**
   * After the value is read: the handler prints the value's bits and a
   * blank line, then `main` asks whether to continue.
   */
  lemma HandlerOutput(h: nat, storage: seq<byte>, bigEndian: bool)
    ensures Step(AwaitValue(h), Value(storage), bigEndian)
            == Transition(AwaitChoice, Header + "\n" + BitLine(storage, bigEndian) + "\n\n" + ContinuePrompt + "\n")
  {
  }

  /** Only -1 at the selection prompt and 'n' at the continue prompt end the loop. */
  lemma QuitTokens(s: State, e: Input, bigEndian: bool)
    requires Reads(s, e)
    ensures Step(s, e, bigEndian).next == Terminated <==> e == Number(-1) || e == Letter('n')
  {
  }

  /**
   * A run stops only at a quit, at the end of the tokens, or at a token the
   * current prompt does not read; and if it ends terminated, the last token
   * it read was -1 or 'n'.
   */
  lemma {:induction false} RunStops(s: State, inputs: seq<Input>, bigEndian: bool)
    ensures var r := Exec(s, inputs, bigEndian);
            r.final == Terminated || r.used == |inputs| || !Reads(r.final, inputs[r.used])
    ensures var r := Exec(s, inputs, bigEndian);
            r.final == Terminated && s != Terminated ==>
              r.used >= 1 && (inputs[r.used - 1] == Number(-1) || inputs[r.used - 1] == Letter('n'))
    decreases |inputs|
  {
    if inputs != [] && Reads(s, inputs[0]) {
      var t := Step(s, inputs[0], bigEndian);
      RunStops(t.next, inputs[1..], bigEndian);
      QuitTokens(s, inputs[0], bigEndian);
    }
  }

  /** Input "abc", then -1: one "Invalid input" report, then the program quits. */
  lemma GarbageThenQuit(bigEndian: bool)
    ensures Exec(AwaitSelection, [Unparsed, Number(-1)], bigEndian)
            == Run(Terminated, InvalidInput + "\n", 2)
  {
  }

  /** A token the prompt reads, in front of more tokens: one step, then the rest. */
  lemma ExecCons(s: State, e: Input, rest: seq<Input>, bigEndian: bool)
    requires Reads(s, e)
    ensures var t := Step(s, e, bigEndian);
            var r := Exec(t.next, rest, bigEndian);
            Exec(s, [e] + rest, bigEndian) == Run(r.final, t.said + r.said, r.used + 1)
  {
    assert ([e] + rest)[0] == e && ([e] + rest)[1..] == rest;
  }

  /** 'n' at the continue prompt is read and ends the run silently. */
  lemma QuitAtChoice(bigEndian: bool)
    ensures Exec(AwaitChoice, [Letter('n')], bigEndian) == Run(Terminated, "", 1)
  {
    ExecCons(AwaitChoice, Letter('n'), [], bigEndian);
    assert [Letter('n')] + [] == [Letter('n')];
  }

  /** A value, then 'n': the handler's output and the program quits. */
  lemma ValueThenQuit(h: nat, mem: seq<byte>, bigEndian: bool)
    ensures Exec(AwaitValue(h), [Value(mem), Letter('n')], bigEndian)
            == Run(Terminated, Step(AwaitValue(h), Value(mem), bigEndian).said, 2)
  {
    var shown := Step(AwaitValue(h), Value(mem), bigEndian).said;
    QuitAtChoice(bigEndian);
    ExecCons(AwaitValue(h), Value(mem), [Letter('n')], bigEndian);
    assert [Value(mem)] + [Letter('n')] == [Value(mem), Letter('n')];
    assert shown + "" == shown;
  }

  /** Selection, value and 'n', in terms of the three steps. */
  lemma PickPrintQuitSteps(opt: int, mem: seq<byte>, bigEndian: bool)
    requires 1 <= opt <= |Handlers|
    ensures Exec(AwaitSelection, [Number(opt), Value(mem), Letter('n')], bigEndian)
            == Run(Terminated, Step(AwaitSelection, Number(opt), bigEndian).said
                               + Step(AwaitValue(opt - 1), Value(mem), bigEndian).said, 3)
  {
    ValueThenQuit(opt - 1, mem, bigEndian);
    ExecCons(AwaitSelection, Number(opt), [Value(mem), Letter('n')], bigEndian);
    assert [Number(opt)] + [Value(mem), Letter('n')] == [Number(opt), Value(mem), Letter('n')];
  }

  /**
   * Choosing option opt, typing a value and answering 'n': the value prompt,
   * the value's bits and the continue prompt are printed, and the program
   * quits after exactly these three tokens.
   */
  lemma PickPrintQuit(opt: int, mem: seq<byte>, bigEndian: bool)
    requires 1 <= opt <= |Handlers|
    ensures Exec(AwaitSelection, [Number(opt), Value(mem), Letter('n')], bigEndian)
            == Run(Terminated,
                   ValuePrompt + "\n" + PrintTypeText(mem, bigEndian) + "\n" + ContinuePrompt + "\n", 3)
  {
    PickPrintQuitSteps(opt, mem, bigEndian);
    var prompt, shown := ValuePrompt + "\n", PrintTypeText(mem, bigEndian) + "\n" + ContinuePrompt + "\n";
    assert Step(AwaitSelection, Number(opt), bigEndian).said == prompt;
    assert Step(AwaitValue(opt - 1), Value(mem), bigEndian).said == shown;
    assert prompt + shown == ValuePrompt + "\n" + PrintTypeText(mem, bigEndian) + "\n" + ContinuePrompt + "\n";
  }

  /**
   * Input 1, 5, n on a little-endian host: "int" is chosen, the four bytes
   * of 5 are printed most significant first, and 'n' quits.
   */
  lemma IntFiveSession()
    ensures Handlers[0] == Int && Storage(5, 4, false) == [5, 0, 0, 0]
    ensures Group(0) == "00000000 " && Group(5) == "00000101 "
    ensures PrintTypeText([5, 0, 0, 0], false)
            == Header + "\n" + Group(0) + Group(0) + Group(0) + Group(5) + "\n"
    ensures Exec(AwaitSelection, [Number(1), Value([5, 0, 0, 0]), Letter('n')], false)
            == Run(Terminated,
                   ValuePrompt + "\n" + PrintTypeText([5, 0, 0, 0], false) + "\n" + ContinuePrompt + "\n", 3)
  {
    IntFiveLittleEndian();
    PickPrintQuit(1, [5, 0, 0, 0], false);
  }
}
