/** `aprintf`: a small `printf` that renders into a fixed 4096-byte stack
    buffer with a sticky error flag, then appends the text to the
    allocation history and hands it to `write`.

    The buffer's observable state is `Out(text, error)`: the bytes before
    `pos` and the flag.  `Step` is one `print_c_buf` and `Feed` a string of
    them; every printing routine is proved to act as `Feed` of the text it
    stands for, and `Render` is the text of a whole format string before
    truncation.  Variadic arguments are a sequence of tagged values.
 */
module Aprintf {
  import opened Chunk

  /** The bytes before `pos` and the `error` flag of a `t_buffer`. */
  datatype Out = Out(text: string, error: bool)

  function MinNat(a: nat, b: nat): nat {
    if a <= b then a else b
  }

  /** The first `cap` bytes of `t`, or all of it when it is shorter. */
  function Clip(t: string, cap: nat): (c: string)
    ensures |c| == MinNat(|t|, cap) && c == t[..|c|]
  {
    if |t| <= cap then t else t[..cap]
  }

  /** `print_c_buf` on a buffer holding at most `cap` bytes (its size less
      one): a byte is stored only while there is no error and there is room,
      otherwise the error flag is set. */
  function Step(cap: nat, st: Out, c: char): (r: Out)
    ensures r.error <==> st.error || |st.text| >= cap
    ensures r.error ==> r.text == st.text
    ensures !r.error ==> r.text == st.text + [c]
  {
    if st.error || |st.text| >= cap then Out(st.text, true) else Out(st.text + [c], false)
  }

  /** A string of `print_c_buf` calls. */
  function Feed(cap: nat, st: Out, s: string): Out
    decreases |s|
  {
    if s == [] then st else Feed(cap, Step(cap, st, s[0]), s[1..])
  }

  /** Printing one byte is one `print_c_buf`. */
  lemma FeedOne(cap: nat, st: Out, c: char)
    ensures Feed(cap, st, [c]) == Step(cap, st, c)
  {
    assert [c][1..] == [];
  }

  /** Once the error flag is set, nothing more is stored. */
  lemma {:induction false} FeedError(cap: nat, st: Out, s: string)
    requires st.error
    ensures Feed(cap, st, s) == st
    decreases |s|
  {
    if s != [] {
      FeedError(cap, Step(cap, st, s[0]), s[1..]);
    }
  }

  /** Printing `a` and then `b` is printing `a + b`. */
  lemma {:induction false} FeedAppend(cap: nat, st: Out, a: string, b: string)
    ensures Feed(cap, st, a + b) == Feed(cap, Feed(cap, st, a), b)
    decreases |a|
  {
    if a == [] {
      assert a + b == b;
    } else {
      assert (a + b)[0] == a[0] && (a + b)[1..] == a[1..] + b;
      FeedAppend(cap, Step(cap, st, a[0]), a[1..], b);
    }
  }

  /** Truncation: from a buffer within its bound and without error, the
      result holds the first `cap` bytes of everything printed, and the
      error flag says whether anything was cut off. */
  lemma {:induction false} FeedClips(cap: nat, st: Out, s: string)
    requires !st.error && |st.text| <= cap
    ensures Feed(cap, st, s) == Out(Clip(st.text + s, cap), |st.text| + |s| > cap)
    decreases |s|
  {
    if s != [] {
      var st1 := Step(cap, st, s[0]);
      if |st.text| >= cap {
        FeedError(cap, st1, s[1..]);
        assert (st.text + s)[..cap] == st.text;
      } else {
        FeedClips(cap, st1, s[1..]);
        assert st1.text + s[1..] == st.text + s;
      }
    }
  }

  /** The text of one digit, from `"0123456789abcdef"` or
      `"0123456789ABCDEF"`. */
  function DigitChar(d: nat, upper: bool): (c: char)
    requires d < 16
  {
    if d < 10 then ('0' as int + d) as char
    else if upper then ('A' as int + d - 10) as char
    else ('a' as int + d - 10) as char
  }

  /** The value a digit character stands for, in either case. */
  function DigitValue(c: char): nat {
    if '0' <= c <= '9' then c as int - '0' as int
    else if 'a' <= c <= 'f' then c as int - 'a' as int + 10
    else if 'A' <= c <= 'F' then c as int - 'A' as int + 10
    else 0
  }

  lemma DigitRoundTrip(d: nat, upper: bool)
    requires d < 16
    ensures DigitValue(DigitChar(d, upper)) == d
    ensures DigitChar(d, upper) == '0' <==> d == 0
    ensures DigitChar(d, upper) != 'x' && DigitChar(d, upper) != '-'
    ensures DigitChar(d, upper) == (if upper then "0123456789ABCDEF" else "0123456789abcdef")[d]
  {
  }

  /** The digits `print_n_buf` and `print_u_buf` emit for `n` in `base`,
      most significant first. */
  function Digits(n: nat, base: nat, upper: bool): (s: string)
    requires 2 <= base <= 16
    ensures 1 <= |s|
    decreases n
  {
    DivStep(n, base);
    (if n >= base then Digits(n / base, base, upper) else []) + [DigitChar(n % base, upper)]
  }

  /** Division by a base of at least 2 shrinks a number that is at least
      the base, and leaves it split into quotient and digit. */
  lemma DivStep(n: nat, base: nat)
    requires 2 <= base
    ensures n == (n / base) * base + n % base && n % base < base
    ensures n >= base ==> 1 <= n / base < n
    ensures n < base ==> n / base == 0 && n % base == n
  {
    var q, r := n / base, n % base;
    assert n == q * base + r;
    if n >= base {
      assert q >= 1;
      assert q * base >= q * 2;
    }
  }

  /** Appending a digit multiplies the value by the base and adds the
      digit. */
  lemma ValueSnoc(hi: string, last: char, base: nat)
    ensures Value(hi + [last], base) == Value(hi, base) * base + DigitValue(last)
  {
    var s := hi + [last];
    assert s[..|s| - 1] == hi && s[|s| - 1] == last;
  }

  /** The number a string of digits in `base` stands for. */
  function Value(s: string, base: nat): nat
    decreases |s|
  {
    if s == [] then 0 else Value(s[..|s| - 1], base) * base + DigitValue(s[|s| - 1])
  }

  /** Reading the digits back gives the number. */
  lemma {:induction false} DigitsRoundTrip(n: nat, base: nat, upper: bool)
    requires 2 <= base <= 16
    ensures Value(Digits(n, base, upper), base) == n
    decreases n
  {
    var q := n / base;
    var last := DigitChar(n % base, upper);
    var hi := if n >= base then Digits(q, base, upper) else [];
    assert Digits(n, base, upper) == hi + [last];
    ValueSnoc(hi, last, base);
    DigitRoundTrip(n % base, upper);
    DivStep(n, base);
    if n >= base {
      DigitsRoundTrip(q, base, upper);
    }
  }

  /** No leading zeros: the first digit is '0' only for the number 0, which
      is the single digit "0". */
  lemma {:induction false} DigitsNoLeadingZero(n: nat, base: nat, upper: bool)
    requires 2 <= base <= 16
    ensures Digits(n, base, upper)[0] == '0' <==> n == 0
    ensures n == 0 ==> Digits(n, base, upper) == "0"
    ensures n < base ==> |Digits(n, base, upper)| == 1
    decreases n
  {
    DivStep(n, base);
    if n >= base {
      var hi := Digits(n / base, base, upper);
      DigitsNoLeadingZero(n / base, base, upper);
      assert Digits(n, base, upper) == hi + [DigitChar(n % base, upper)];
    } else {
      DigitRoundTrip(n, upper);
      assert Digits(n, base, upper) == [DigitChar(n, upper)];
    }
  }

  /** Digits contain neither the 'x' of a hexadecimal prefix nor a sign. */
  lemma {:induction false} DigitsPlain(n: nat, base: nat, upper: bool)
    requires 2 <= base <= 16
    ensures 'x' !in Digits(n, base, upper) && '-' !in Digits(n, base, upper)
    decreases n
  {
    DigitRoundTrip(n % base, upper);
    if n >= base {
      DivStep(n, base);
      DigitsPlain(n / base, base, upper);
    }
  }

  /** `uppercase` changes only the case of the letters a-f: the digits come
      from `"0123456789ABCDEF"` with it and from `"0123456789abcdef"`
      without. */
  lemma {:induction false} DigitsCase(n: nat, base: nat)
    requires 2 <= base <= 16
    ensures |Digits(n, base, true)| == |Digits(n, base, false)|
    ensures forall j :: 0 <= j < |Digits(n, base, false)| ==>
              DigitValue(Digits(n, base, true)[j]) == DigitValue(Digits(n, base, false)[j])
    ensures base <= 10 ==> Digits(n, base, true) == Digits(n, base, false)
    ensures forall j :: 0 <= j < |Digits(n, base, true)| ==> Digits(n, base, true)[j] in "0123456789ABCDEF"
    ensures forall j :: 0 <= j < |Digits(n, base, false)| ==> Digits(n, base, false)[j] in "0123456789abcdef"
    decreases n
  {
    DigitRoundTrip(n % base, true);
    DigitRoundTrip(n % base, false);
    if n >= base {
      DivStep(n, base);
      DigitsCase(n / base, base);
    }
  }

  /** The bases `print_n_buf` is called with: 10 and 16, and 11 and 17
      for a signed and a pointer value. */
  predicate NumberBase(base: nat) {
    base == 10 || base == 11 || base == 16 || base == 17
  }

  /** The text of `print_n_buf(n, base, ...)`: base 11 is decimal after a
      '-', base 17 hexadecimal after "0x". */
  function NumberText(n: nat, base: nat, upper: bool): string
    requires NumberBase(base)
  {
    if base == 11 then "-" + Digits(n, 10, upper)
    else if base == 17 then "0x" + Digits(n, 16, upper)
    else Digits(n, base, upper)
  }

  /** The prefix `print_n_buf` prints for base 11 or 17 before it goes on in
      base 10 or 16. */
  function Prefix(base: nat): string {
    if base == 11 then "-" else if base == 17 then "0x" else ""
  }

  function InnerBase(base: nat): nat {
    if base == 11 then 10 else if base == 17 then 16 else base
  }

  /** The digits above the last one. */
  function High(n: nat, b: nat, upper: bool): string
    requires 2 <= b <= 16
  {
    if n >= b then Digits(n / b, b, upper) else []
  }

  /** Printing a number is printing its prefix, then its higher digits,
      then its last digit. */
  lemma NumberPieces(cap: nat, s0: Out, s1: Out, s2: Out, s3: Out, n: nat, base: nat, b: nat, d: char, upper: bool)
    requires NumberBase(base) && b == InnerBase(base) && d == DigitChar(n % b, upper)
    requires s1 == Feed(cap, s0, Prefix(base))
    requires s2 == Feed(cap, s1, High(n, b, upper))
    requires s3 == Feed(cap, s2, [d])
    ensures s3 == Feed(cap, s0, NumberText(n, base, upper))
  {
    assert NumberText(n, base, upper) == Prefix(base) + (High(n, b, upper) + [d]);
    FeedAppend(cap, s0, Prefix(base), High(n, b, upper) + [d]);
    FeedAppend(cap, s1, High(n, b, upper), [d]);
  }

  /** Base 17 puts "0x" in front exactly once and base 11 the sign exactly
      once; the rest is the digits, which read back as `n`. */
  lemma NumberPrefix(n: nat, base: nat, upper: bool)
    requires NumberBase(base)
    ensures base == 17 ==> NumberText(n, base, upper)[..2] == "0x"
                           && 'x' !in NumberText(n, base, upper)[2..]
                           && Value(NumberText(n, base, upper)[2..], 16) == n
    ensures base == 11 ==> NumberText(n, base, upper)[0] == '-'
                           && '-' !in NumberText(n, base, upper)[1..]
                           && Value(NumberText(n, base, upper)[1..], 10) == n
    ensures (base == 10 || base == 16) ==> Value(NumberText(n, base, upper), base) == n
  {
    var t := NumberText(n, base, upper);
    if base == 17 {
      assert t[2..] == Digits(n, 16, upper);
      DigitsPlain(n, 16, upper);
      DigitsRoundTrip(n, 16, upper);
    } else if base == 11 {
      assert t[1..] == Digits(n, 10, upper);
      DigitsPlain(n, 10, upper);
      DigitsRoundTrip(n, 10, upper);
    } else {
      DigitsRoundTrip(n, base, upper);
    }
  }

  const IntMin: int := -0x8000_0000
  const IntMax: int := 0x7FFF_FFFF

  /** The text of `%d` / `%i`: the magnitude, negated in `long long` so that
      the most negative `int` is exact, after a '-' when negative. */
  function IntText(i: int): string
    requires IntMin <= i <= IntMax
  {
    if i < 0 then NumberText(i * -1, 11, false) else NumberText(i, 10, false)
  }

  /** Reading a `%d` text back: an optional '-' and decimal digits. */
  function SignedValue(s: string): int {
    if s != [] && s[0] == '-' then -(Value(s[1..], 10) as int) else Value(s, 10)
  }

  /** `%d` round-trips every `int`, the most negative one included. */
  lemma IntTextRoundTrip(i: int)
    requires IntMin <= i <= IntMax
    ensures SignedValue(IntText(i)) == i
    ensures IntText(i)[0] == '-' <==> i < 0
  {
    if i < 0 {
      NumberPrefix(i * -1, 11, false);
    } else {
      NumberPrefix(i, 10, false);
      DigitsNoLeadingZero(i, 10, false);
      DigitRoundTrip(i % 10, false);
      DigitsPlain(i, 10, false);
      assert IntText(i)[0] in IntText(i);
    }
  }

  /** A variadic argument, tagged with the C type the conversion reads. */
  datatype Arg =
    | CharArg(c: int)               // `%c`: an int, stored as a byte
    | StrArg(s: Option<string>)     // `%s`: a C string or NULL
    | SizeArg(n: nat)               // `%u`: a size_t
    | PtrArg(n: nat)                // `%p`: an unsigned long
    | UintArg(n: nat)               // `%x`, `%X`: an unsigned int
    | IntArg(i: int)                // `%d`, `%i`: an int

  /** How many arguments a conversion letter reads: none for '%' and for
      letters `chooser_buf` does not know. */
  function Uses(conv: char): nat {
    match conv
    case 'c' => 1
    case 's' => 1
    case 'u' => 1
    case 'p' => 1
    case 'x' => 1
    case 'X' => 1
    case 'd' => 1
    case 'i' => 1
    case _ => 0
  }

  /** The argument has the type and range the conversion reads. */
  predicate Matches(conv: char, a: Arg) {
    match conv
    case 'c' => a.CharArg? && IntMin <= a.c <= IntMax
    case 's' => a.StrArg? && (a.s.Some? ==> '\0' !in a.s.value)
    case 'u' => a.SizeArg? && a.n < 0x1_0000_0000_0000_0000
    case 'p' => a.PtrArg? && a.n < 0x1_0000_0000_0000_0000
    case 'x' => a.UintArg? && a.n < 0x1_0000_0000
    case 'X' => a.UintArg? && a.n < 0x1_0000_0000
    case 'd' => a.IntArg? && IntMin <= a.i <= IntMax
    case 'i' => a.IntArg? && IntMin <= a.i <= IntMax
    case _ => true
  }

  /** The conversion may read argument `k`. */
  predicate ConvOk(conv: char, args: seq<Arg>, k: nat) {
    Uses(conv) == 1 ==> k < |args| && Matches(conv, args[k])
  }

  /** The byte `print_c_buf` stores for an int. */
  function ByteChar(c: int): char {
    (c % 256) as char
  }

  /** What `print_s_buf` prints: the string, or "(null)". */
  function StringText(s: Option<string>): string {
    if s.None? then "(null)" else s.value
  }

  /** The text `chooser_buf` prints for one conversion. */
  function Convert(conv: char, args: seq<Arg>, k: nat): string
    requires ConvOk(conv, args, k)
  {
    match conv
    case '%' => "%"
    case 'c' => [ByteChar(args[k].c)]
    case 's' => StringText(args[k].s)
    case 'u' => Digits(args[k].n, 10, false)
    case 'p' => NumberText(args[k].n, 17, false)
    case 'x' => NumberText(args[k].n, 16, false)
    case 'X' => NumberText(args[k].n, 16, true)
    case 'd' => IntText(args[k].i)
    case 'i' => IntText(args[k].i)
    case _ => []
  }

  /** A format string from position `i` on, with argument `k` next: every
      '%' is followed by one more character (a '%' at the very end would
      make the loop read past the terminating NUL), and when that character
      is a conversion that takes an argument, the argument is there and of
      the kind it names.  Any other character after '%' prints nothing. */
  predicate FormatOk(fmt: string, i: nat, args: seq<Arg>, k: nat)
    requires i <= |fmt|
    decreases |fmt| - i
  {
    if i == |fmt| then true
    else if fmt[i] == '%' then
      && i + 1 < |fmt|
      && ConvOk(fmt[i + 1], args, k)
      && FormatOk(fmt, i + 2, args, k + Uses(fmt[i + 1]))
    else FormatOk(fmt, i + 1, args, k)
  }

  /** The whole text of a format string from position `i` on, before
      truncation. */
  function RenderFrom(fmt: string, i: nat, args: seq<Arg>, k: nat): string
    requires i <= |fmt| && FormatOk(fmt, i, args, k)
    decreases |fmt| - i
  {
    if i == |fmt| then []
    else if fmt[i] == '%' then
      Convert(fmt[i + 1], args, k) + RenderFrom(fmt, i + 2, args, k + Uses(fmt[i + 1]))
    else [fmt[i]] + RenderFrom(fmt, i + 1, args, k)
  }

  function Render(fmt: string, args: seq<Arg>): string
    requires FormatOk(fmt, 0, args, 0)
  {
    RenderFrom(fmt, 0, args, 0)
  }

  /** A '%' at `i` renders its conversion, then the rest after the letter. */
  lemma FormatConversion(fmt: string, i: nat, args: seq<Arg>, k: nat)
    requires i < |fmt| && fmt[i] == '%' && FormatOk(fmt, i, args, k)
    ensures i + 1 < |fmt| && ConvOk(fmt[i + 1], args, k)
    ensures FormatOk(fmt, i + 2, args, k + Uses(fmt[i + 1]))
    ensures RenderFrom(fmt, i, args, k) == Convert(fmt[i + 1], args, k) + RenderFrom(fmt, i + 2, args, k + Uses(fmt[i + 1]))
  {
  }

  /** Any other byte at `i` renders as itself. */
  lemma FormatPlain(fmt: string, i: nat, args: seq<Arg>, k: nat)
    requires i < |fmt| && fmt[i] != '%' && FormatOk(fmt, i, args, k)
    ensures FormatOk(fmt, i + 1, args, k)
    ensures RenderFrom(fmt, i, args, k) == [fmt[i]] + RenderFrom(fmt, i + 1, args, k)
  {
  }

  /** The bytes `aprintf` ends up with: the first 4095 of the rendering. */
  function Output(fmt: Option<string>, args: seq<Arg>): string
    requires fmt.Some? ==> FormatOk(fmt.value, 0, args, 0)
  {
    if fmt.None? then [] else Clip(Render(fmt.value, args), BufferSize - 1)
  }

  /** The output is a prefix of the untruncated rendering, at most 4095
      bytes long, and all of it when that fits. */
  lemma OutputTruncates(fmt: string, args: seq<Arg>)
    requires FormatOk(fmt, 0, args, 0)
    ensures var r := Render(fmt, args);
            var o := Output(Some(fmt), args);
            o <= r && |o| <= BufferSize - 1 && (|r| <= BufferSize - 1 ==> o == r)
  {
  }

  const BufferSize: nat := 4096

  /** `t_buffer` over its byte array. */
  class Buffer {
    const data: array<char>
    const size: nat
    var pos: nat
    var error: bool

    /** `pos` stays below the last byte, and it is there when the error
        flag is set. */
    ghost predicate Valid()
      reads this
    {
      data.Length == size && 1 <= size && pos <= size - 1 && (error ==> pos == size - 1)
    }

    ghost function State(): Out
      requires Valid()
      reads this, data
    {
      Out(data[..pos], error)
    }

    constructor Empty(size: nat)
      requires 1 <= size
      ensures Valid() && State() == Out([], false) && this.size == size && fresh(data)
    {
      data := new char[size](_ => '\0');
      this.size := size;
      pos, error := 0, false;
    }

    /** `print_c_buf`: store `c` at `pos` when there is no error and room
        below the last byte, otherwise set the error flag. */
    method PutChar(c: char)
      requires Valid()
      modifies this`pos, this`error, data
      ensures Valid() && State() == Step(size - 1, old(State()), c)
      ensures old(error) || old(pos) >= size - 1 ==> data[..] == old(data[..])
      ensures !(old(error) || old(pos) >= size - 1) ==> data[..] == old(data[..])[old(pos) := c]
    {
      if error || pos >= size - 1 {
        error := true;
        return;
      }
      data[pos] := c;
      pos := pos + 1;
      assert data[..pos] == old(data[..pos]) + [c];
    }

    /** `print_s_buf`: the string, or "(null)", a byte at a time until the
        end or an error. */
    method PutString(s: Option<string>)
      requires Valid()
      modifies this`pos, this`error, data
      ensures Valid() && State() == Feed(size - 1, old(State()), StringText(s))
    {
      var t := if s.None? then "(null)" else s.value;
      var i := 0;
      while i < |t| && !error
        invariant Valid() && i <= |t|
        invariant Feed(size - 1, State(), t[i..]) == Feed(size - 1, old(State()), t)
      {
        assert t[i..][0] == t[i] && t[i..][1..] == t[i + 1..];
        PutChar(t[i]);
        i := i + 1;
      }
      if i < |t| {
        FeedError(size - 1, State(), t[i..]);
      } else {
        assert t[i..] == [];
      }
    }

    /** `print_n_buf`: the prefix of base 11 or 17, then the digits of
        `n`, most significant first, by recursion on `n / base`. */
    method PutNumber(n: nat, base: nat, upper: bool)
      requires Valid() && NumberBase(base)
      modifies this`pos, this`error, data
      ensures Valid() && State() == Feed(size - 1, old(State()), NumberText(n, base, upper))
      decreases n, base
    {
      ghost var s0 := State();
      var b := base;
      if b == 11 {
        PutChar('-');
        b := 10;
        FeedOne(size - 1, s0, '-');
      } else if b == 17 {
        PutString(Some("0x"));
        b := 16;
      }
      ghost var s1 := State();
      assert b == InnerBase(base) && s1 == Feed(size - 1, s0, Prefix(base));
      DivStep(n, b);
      if n >= b {
        PutNumber(n / b, b, upper);
      }
      ghost var s2 := State();
      assert s2 == Feed(size - 1, s1, High(n, b, upper));
      var d := DigitChar(n % b, upper);
      if !error {
        PutChar(d);
      } else {
        FeedError(size - 1, s2, [d]);
      }
      FeedOne(size - 1, s2, d);
      NumberPieces(size - 1, s0, s1, s2, State(), n, base, b, d, upper);
    }

    /** `print_u_buf`: the decimal digits of `n`, by recursion on
        `n / 10`. */
    method PutUnsigned(n: nat)
      requires Valid()
      modifies this`pos, this`error, data
      ensures Valid() && State() == Feed(size - 1, old(State()), Digits(n, 10, false))
      decreases n
    {
      ghost var s1 := State();
      ghost var high := if n >= 10 then Digits(n / 10, 10, false) else [];
      if n >= 10 {
        PutUnsigned(n / 10);
      }
      ghost var s2 := State();
      var d := DigitChar(n % 10, false);
      if !error {
        PutChar(d);
      } else {
        FeedError(size - 1, s2, [d]);
      }
      FeedAppend(size - 1, s1, high, [d]);
    }

    /** `chooser_buf`: print conversion `conv`, reading argument `k` when
        the conversion takes one; returns the index of the next argument. */
    method Choose(conv: char, args: seq<Arg>, k: nat) returns (next: nat)
      requires Valid() && ConvOk(conv, args, k)
      modifies this`pos, this`error, data
      ensures Valid() && State() == Feed(size - 1, old(State()), Convert(conv, args, k))
      ensures next == k + Uses(conv)
    {
      next := k + Uses(conv);
      if conv == '%' {
        PutChar('%');
      } else if conv == 'c' {
        PutChar(ByteChar(args[k].c));
      } else if conv == 's' {
        PutString(args[k].s);
      } else if conv == 'u' {
        PutUnsigned(args[k].n);
      } else if conv == 'p' {
        PutNumber(args[k].n, 17, false);
      } else if conv == 'x' {
        PutNumber(args[k].n, 16, false);
      } else if conv == 'X' {
        PutNumber(args[k].n, 16, true);
      } else if conv == 'd' || conv == 'i' {
        var n := args[k].i;
        if n < 0 {
          PutNumber(n * -1, 11, false);
        } else {
          PutNumber(n, 10, false);
        }
      }
    }

    /** The loop of `aprintf`: plain bytes are printed, a '%' hands the
        letter after it to `chooser_buf`; it stops at the end of the format
        or at the first error. */
    method Format(f: string, args: seq<Arg>)
      requires Valid() && State() == Out([], false) && FormatOk(f, 0, args, 0)
      modifies this`pos, this`error, data
      ensures Valid() && State() == Feed(size - 1, Out([], false), Render(f, args))
    {
      var i: nat, k: nat := 0, 0;
      while i < |f| && !error
        invariant Valid() && i <= |f| && FormatOk(f, i, args, k)
        invariant Feed(size - 1, State(), RenderFrom(f, i, args, k)) == Feed(size - 1, Out([], false), Render(f, args))
      {
        i, k := Advance(f, i, args, k);
      }
      if i < |f| {
        FeedError(size - 1, State(), RenderFrom(f, i, args, k));
      }
    }

    /** One turn of the loop of `aprintf`: a conversion (the '%' and its
        letter) or a plain byte; what is left to print is unchanged in
        total. */
    method Advance(f: string, i: nat, args: seq<Arg>, k: nat) returns (i1: nat, k1: nat)
      requires Valid() && i < |f| && FormatOk(f, i, args, k)
      modifies this`pos, this`error, data
      ensures Valid() && i < i1 <= |f| && FormatOk(f, i1, args, k1)
      ensures Feed(size - 1, State(), RenderFrom(f, i1, args, k1)) == Feed(size - 1, old(State()), RenderFrom(f, i, args, k))
    {
      if f[i] == '%' {
        FormatConversion(f, i, args, k);
        k1 := PutConversion(f[i + 1], args, k, RenderFrom(f, i + 2, args, k + Uses(f[i + 1])));
        i1 := i + 2;
      } else {
        FormatPlain(f, i, args, k);
        PutPlain(f[i], RenderFrom(f, i + 1, args, k));
        k1, i1 := k, i + 1;
      }
    }

    /** A conversion, followed by the `rest` of the rendering. */
    method PutConversion(conv: char, args: seq<Arg>, k: nat, ghost rest: string) returns (next: nat)
      requires Valid() && ConvOk(conv, args, k)
      modifies this`pos, this`error, data
      ensures Valid() && next == k + Uses(conv)
      ensures Feed(size - 1, State(), rest) == Feed(size - 1, old(State()), Convert(conv, args, k) + rest)
    {
      ghost var st := State();
      next := Choose(conv, args, k);
      FeedAppend(size - 1, st, Convert(conv, args, k), rest);
    }

    /** A plain byte, followed by the `rest` of the rendering. */
    method PutPlain(c: char, ghost rest: string)
      requires Valid()
      modifies this`pos, this`error, data
      ensures Valid() && Feed(size - 1, State(), rest) == Feed(size - 1, old(State()), [c] + rest)
    {
      ghost var st := State();
      PutChar(c);
      FeedAppend(size - 1, st, [c], rest);
    }
  }

  /** The allocation history: the bytes before `hist_pos` and the
      capacity `hist_size`. */
  class History {
    var log: string
    var size: nat

    constructor Empty()
      ensures log == [] && size == 0
    {
      log, size := [], 0;
    }
  }

  const SizeMax: nat := 0xFFFF_FFFF_FFFF_FFFF

  /** Render `fmt` into a 4096-byte buffer; when anything was rendered,
      append it to the history if `addAllocHist` and logging are on, and
      hand it to `write` unless `fd` is -1 or the line is meant only for the
      history.  `grown` is the capacity `heap_hist_extend` leaves and
      `written` what `write` returns; `sent` is what `write` was given. */
  method Aprintf(fd: int, addAllocHist: bool, fmt: Option<string>, args: seq<Arg>,
                 hist: History, logging: bool, debug: bool, grown: nat, written: int)
      returns (result: int, sent: Option<string>)
    requires fmt.Some? ==> FormatOk(fmt.value, 0, args, 0)
    // a C string: the loop would stop at an embedded NUL
    requires fmt.Some? ==> '\0' !in fmt.value
    modifies hist
    ensures var out := Output(fmt, args);
            && (out != [] && addAllocHist && logging && old(hist.size) < SizeMax ==> hist.log == old(hist.log) + out)
            && (!(out != [] && addAllocHist && logging && old(hist.size) < SizeMax) ==> hist.log == old(hist.log))
            // the history grows to `grown` when it is empty or the text would not fit
            && hist.size == (if out != [] && addAllocHist && logging && old(hist.size) < SizeMax
                                 && (old(hist.size) == 0 || |old(hist.log)| + |out| >= old(hist.size))
                             then grown else old(hist.size))
            && (out == [] || fd == -1 || (addAllocHist && !debug && !logging) ==> result == 0 && sent == None)
            && (!(out == [] || fd == -1 || (addAllocHist && !debug && !logging)) ==> result == written && sent == Some(out))
  {
    var buf := new Buffer.Empty(BufferSize);
    if fmt.Some? {
      buf.Format(fmt.value, args);
    }
    ghost var rendered := if fmt.None? then [] else Render(fmt.value, args);
    FeedClips(BufferSize - 1, Out([], false), rendered);
    assert buf.State() == Out(Output(fmt, args), |rendered| > BufferSize - 1);
    if buf.error && buf.pos > 0 {
      buf.pos := buf.size - 1;
    }
    var out := buf.data[..buf.pos];
    result, sent := 0, None;
    if buf.pos > 0 {
      if addAllocHist && logging {
        if hist.size < SizeMax {
          if hist.size == 0 || |hist.log| + buf.pos >= hist.size {
            hist.size := grown;
          }
          hist.log := hist.log + out;
        }
      }
      if fd == -1 || (addAllocHist && !debug && !logging) {
        return 0, None;
      }
      result, sent := written, Some(out);
    }
  }
}
