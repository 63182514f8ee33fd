/** printint and vsnprintf of lib/libstring/string.c, and strtol of lib/libstring/conv.c, as they run. */
module Printf {
  import opened Common
  import opened Numbers

  function Min(x: nat, y: nat): nat { if x < y then x else y }

  function Reverse(s: seq<char>): (r: seq<char>)
    ensures |r| == |s| && forall k :: 0 <= k < |s| ==> r[k] == s[|s| - 1 - k]
  {
    if s == [] then [] else [s[|s| - 1]] + Reverse(s[..|s| - 1])
  }

  /** `text`, as far as there is room for it, written at `at` and nowhere else. */
  ghost predicate Wrote(before: seq<char>, after: seq<char>, at: nat, max: nat, text: seq<char>, n: nat) {
    && |after| == |before| && at + n <= |after| && n == Min(|text|, max)
    && after == before[..at] + text[..n] + before[at + n..]
  }

  lemma ReverseMore(low: seq<char>, c: char)
    ensures Reverse(low + [c]) == [c] + Reverse(low)
  {
    assert (low + [c])[..|low|] == low;
  }

  lemma ReverseNothing(s: seq<char>)
    ensures s == s + Reverse([]) && s == [] + s && forall t :: [] + Reverse(t) == Reverse(t)
  {
  }

  lemma LastDigit(u: nat, base: nat)
    requires base >= 2
    ensures Digits(u, base) ==
            (if Quot(u, base) > 0 then Digits(Quot(u, base), base) else []) + [DigitChar(Rem(u, base))]
  {
    Division(u, base);
    hide Quot, Rem, DigitChar;
  }

  /** The digits still to come, and those already in the scratch buffer, last digit first. */
  lemma ScratchStep(i: nat, base: nat, rest: nat, low: seq<char>)
    requires base >= 2
    requires Digits(i, base) == Digits(rest, base) + Reverse(low)
    ensures var low' := low + [DigitChar(Rem(rest, base))];
            Digits(i, base) == (if Quot(rest, base) > 0 then Digits(Quot(rest, base), base) else []) + Reverse(low')
  {
    hide Quot, Rem, DigitChar, Digits, Reverse;
    var c := DigitChar(Rem(rest, base));
    var high := if Quot(rest, base) > 0 then Digits(Quot(rest, base), base) else [];
    LastDigit(rest, base);
    ReverseMore(low, c);
    assert high + [c] + Reverse(low) == high + ([c] + Reverse(low));
  }

  /** The first loop of printint: the digits into the scratch buffer, last one first. */
  method FillScratch(s: array<char>, i: nat, base: nat) returns (c: nat)
    requires s.Length == SCRATCH && i < WRAP && base >= 2
    modifies s
    ensures c <= SCRATCH && Digits(i, base) == Reverse(s[..c])
  {
    hide Digits, Quot, Rem, DigitChar, Reverse;
    var rest := i;
    c := 0;
    ScratchSuffices(i, base);
    ReverseNothing(Digits(i, base));
    assert s[..0] == [];
    while c == 0 || rest > 0
      invariant c <= |Digits(i, base)| && (c == 0 ==> rest == i)
      invariant Digits(i, base) == (if c == 0 || rest > 0 then Digits(rest, base) else []) + Reverse(s[..c])
      decreases if c == 0 then 1 else 0, rest
    {
      Division(rest, base);
      ScratchStep(i, base, rest, s[..c]);
      s[c] := DigitChar(Rem(rest, base));
      assert s[..c + 1] == s[..c] + [s[c]];
      rest := Quot(rest, base);
      c := c + 1;
    }
  }

  /** The second loop of printint: what the scratch buffer holds, last one first, as far as there is room. */
  method CopyOut(str: array<char>, at: nat, max: nat, s: array<char>, count: nat, ghost digits: seq<char>)
    returns (d: nat)
    requires at + max <= str.Length && s != str && count == |digits| <= s.Length
    requires forall k :: 0 <= k < |digits| ==> digits[k] == s[count - 1 - k]
    modifies str
    ensures Wrote(old(str[..]), str[..], at, max, digits, d)
  {
    ghost var before := str[..];
    var c := count;
    d := 0;
    assert before == before[..at] + digits[..0] + before[at..];
    while c > 0 && d < max
      invariant 0 <= c && c + d == count && d <= max
      invariant str[..] == before[..at] + digits[..d] + before[at + d..]
    {
      c := c - 1;
      str[at + d] := s[c];
      d := d + 1;
    }
  }

  method PrintInt(str: array<char>, at: nat, max: nat, i: nat, base: nat) returns (d: nat)
    requires at + max <= str.Length && i < WRAP && base >= 2
    modifies str
    ensures Wrote(old(str[..]), str[..], at, max, Digits(i, base), d)
  {
    hide Digits, Reverse, Wrote;
    var s := new char[SCRATCH];
    var c := FillScratch(s, i, base);
    d := CopyOut(str, at, max, s, c, Digits(i, base));
  }

  // ------------------------------------------------------------------ vsnprintf

  datatype Arg = Int(i: int) | Uint(u: nat) | Char(c: char) | Str(s: Option<seq<char>>)

  /** The argument that the directive `c` takes, if any, is there and is of its type. */
  predicate HasArg(c: char, args: seq<Arg>) {
    match c
    case 'i' => args != [] && args[0].Int? && -0x8000_0000 <= args[0].i < 0x8000_0000
    case 'u' => args != [] && args[0].Uint? && args[0].u < WRAP
    case 'h' => args != [] && args[0].Uint? && args[0].u < WRAP
    case 'b' => args != [] && args[0].Uint? && args[0].u < WRAP
    case 'c' => args != [] && args[0].Char?
    case 's' => args != [] && args[0].Str?
    case _ => true
  }

  function RestArgs(c: char, args: seq<Arg>): seq<Arg>
    requires HasArg(c, args)
  {
    if c in {'i', 'u', 'h', 'b', 'c', 's'} then args[1..] else args
  }

  /** What one directive stands for; an unknown one for nothing. */
  function Directive(c: char, args: seq<Arg>): seq<char>
    requires HasArg(c, args)
  {
    match c
    case '%' => ['%']
    case 'i' => SignedDigits(args[0].i)
    case 'u' => Digits(args[0].u, 10)
    case 'h' => Digits(args[0].u, 16)
    case 'b' => Digits(args[0].u, 2)
    case 'c' => [args[0].c]
    case 's' => if args[0].s.Some? then args[0].s.value else "(null)"
    case _ => []
  }

  /** Every directive has its argument, and the format does not end in the middle of one. */
  predicate Matches(fmt: seq<char>, args: seq<Arg>) {
    if fmt == [] then true
    else if fmt[0] != '%' then Matches(fmt[1..], args)
    else |fmt| > 1 && HasArg(fmt[1], args) && Matches(fmt[2..], RestArgs(fmt[1], args))
  }

  /** The whole text, without regard to room. */
  function Render(fmt: seq<char>, args: seq<Arg>): seq<char>
    requires Matches(fmt, args)
  {
    if fmt == [] then []
    else if fmt[0] != '%' then [fmt[0]] + Render(fmt[1..], args)
    else Directive(fmt[1], args) + Render(fmt[2..], RestArgs(fmt[1], args))
  }

  /** Two texts written one after the other are one text written. */
  lemma WroteBoth(
    a: seq<char>, b: seq<char>, c: seq<char>, at: nat, max: nat, x: seq<char>, y: seq<char>, m: nat, n: nat)
    requires Wrote(a, b, at, max, x, m) && Wrote(b, c, at + m, max - m, y, n)
    ensures Wrote(a, c, at, max, x + y, m + n) && m + n <= max
  {
    assert c[..at] == a[..at] && c[at..at + m] == x[..m] && c[at + m..at + m + n] == y[..n];
    assert c[at + m + n..] == a[at + m + n..];
    assert (x + y)[..m + n] == x[..m] + y[..n];
  }

  lemma WroteNothing(a: seq<char>, at: nat, max: nat)
    requires at <= |a|
    ensures Wrote(a, a, at, max, [], 0)
  {
    assert a == a[..at] + [] + a[at..];
  }

  /** str[ind++] = c. */
  method PutChar(str: array<char>, ind: nat, max: nat, c: char)
    requires ind < max <= str.Length
    modifies str
    ensures Wrote(old(str[..]), str[..], ind, max - ind, [c], 1)
  {
    ghost var before := str[..];
    str[ind] := c;
    assert str[..] == before[..ind] + [c] + before[ind + 1..];
  }

  /** The %i arm. */
  method PutInt(str: array<char>, ind: nat, max: nat, i: int) returns (n: nat)
    requires ind < max <= str.Length && -0x8000_0000 <= i < 0x8000_0000
    modifies str
    ensures Wrote(old(str[..]), str[..], ind, max - ind, SignedDigits(i), n)
  {
    hide Wrote, Digits;
    var u: nat := if i < 0 then -i else i;
    if i < 0 {
      PutChar(str, ind, max, '-');
      label Signed:
      if ind + 1 >= max {
        WroteFull(old(str[..]), str[..], ind, '-', Digits(u, 10));
        return 1;
      }
      ghost var signed := str[..];
      n := PrintInt(str, ind + 1, max - ind - 1, u, 10);
      WroteBoth(old(str[..]), signed, str[..], ind, max - ind, ['-'], Digits(u, 10), 1, n);
      n := n + 1;
    } else {
      n := PrintInt(str, ind, max - ind, u, 10);
    }
  }

  lemma WroteFull(a: seq<char>, b: seq<char>, at: nat, c: char, y: seq<char>)
    requires Wrote(a, b, at, 1, [c], 1)
    ensures Wrote(a, b, at, 1, [c] + y, 1)
  {
    assert ([c] + y)[..1] == [c][..1];
  }

  /** The %s arm. */
  method PutString(str: array<char>, ind: nat, max: nat, s: seq<char>) returns (n: nat)
    requires ind <= max <= str.Length
    modifies str
    ensures Wrote(old(str[..]), str[..], ind, max - ind, s, n)
  {
    ghost var before := str[..];
    n := 0;
    assert before == before[..ind] + s[..0] + before[ind..];
    while ind + n < max && n < |s|
      invariant n <= |s| && ind + n <= max && str[..] == before[..ind] + s[..n] + before[ind + n..]
    {
      ghost var now := str[..];
      str[ind + n] := s[n];
      assert str[..] == now[ind + n := s[n]];
      NextChar(before, ind, s, n);
      n := n + 1;
    }
  }

  lemma NextChar(before: seq<char>, ind: nat, s: seq<char>, n: nat)
    requires ind + n < |before| && n < |s|
    ensures (before[..ind] + s[..n] + before[ind + n..])[ind + n := s[n]] ==
            before[..ind] + s[..n + 1] + before[ind + n + 1..]
  {
  }

  method PutDirective(str: array<char>, ind: nat, max: nat, c: char, args: seq<Arg>) returns (n: nat)
    requires ind < max <= str.Length && HasArg(c, args)
    modifies str
    ensures Wrote(old(str[..]), str[..], ind, max - ind, Directive(c, args), n)
  {
    hide Wrote, Digits, SignedDigits;
    match c
    case '%' => PutChar(str, ind, max, '%'); n := 1;
    case 'i' => n := PutInt(str, ind, max, args[0].i);
    case 'u' => n := PrintInt(str, ind, max - ind, args[0].u, 10);
    case 'h' => n := PrintInt(str, ind, max - ind, args[0].u, 16);
    case 'b' => n := PrintInt(str, ind, max - ind, args[0].u, 2);
    case 'c' => PutChar(str, ind, max, args[0].c); n := 1;
    case 's' => n := PutString(str, ind, max, if args[0].s.Some? then args[0].s.value else "(null)");
    case _ => WroteNothing(str[..], ind, max - ind); n := 0;
  }

  /** The text from position `p` of the format on. */
  lemma NextText(fmt: seq<char>, p: nat, args: seq<Arg>)
    requires p < |fmt| && Matches(fmt[p..], args)
    ensures fmt[p] != '%' ==>
              Matches(fmt[p + 1..], args) && Render(fmt[p..], args) == [fmt[p]] + Render(fmt[p + 1..], args)
    ensures fmt[p] == '%' ==>
              && p + 1 < |fmt| && HasArg(fmt[p + 1], args) && Matches(fmt[p + 2..], RestArgs(fmt[p + 1], args))
              && Render(fmt[p..], args) ==
                 Directive(fmt[p + 1], args) + Render(fmt[p + 2..], RestArgs(fmt[p + 1], args))
  {
    hide Directive, HasArg, RestArgs;
    assert fmt[p..][0] == fmt[p] && fmt[p..][1..] == fmt[p + 1..];
    if fmt[p] == '%' {
      assert fmt[p..][1] == fmt[p + 1] && fmt[p..][2..] == fmt[p + 2..];
    }
  }

  lemma Assoc(xs: seq<char>, ys: seq<char>, zs: seq<char>)
    ensures xs + (ys + zs) == xs + ys + zs
  {
  }

  /** A buffer, and what lies behind it, after vsnprintf: the text as far as `max` goes, and a NUL. */
  function Printed(before: seq<char>, max: nat, text: seq<char>): seq<char>
    requires Min(|text|, max) < |before|
  {
    var n := Min(|text|, max);
    text[..n] + ['\0'] + before[n + 1..]
  }

  /** A text that filled the room is as good as any longer one. */
  lemma WroteAll(a: seq<char>, b: seq<char>, max: nat, done: seq<char>, fmt: seq<char>, args: seq<Arg>, n: nat)
    requires Wrote(a, b, 0, max, done, n) && Matches(fmt, args) && (fmt == [] || n == max)
    ensures var text := done + Render(fmt, args);
            n == Min(|text|, max) && |a| == |b| && (n < |b| ==> b[n := '\0'] == Printed(a, max, text))
  {
    hide Matches;
    assert (done + Render(fmt, args))[..n] == done[..n];
  }

  /**
   vsnprintf: the first `max` characters of the text, and a NUL after them. The buffer needs a place
   for that NUL: with `max` places it holds only shorter texts.
   */
  method Vsnprintf(str: array<char>, max: nat, fmt: seq<char>, args: seq<Arg>) returns (ind: nat)
    requires max <= str.Length && Matches(fmt, args)
    requires Min(|Render(fmt, args)|, max) < str.Length
    modifies str
    ensures ind == Min(|Render(fmt, args)|, max)
    ensures str[..] == Printed(old(str[..]), max, Render(fmt, args))
  {
    hide Wrote, Directive, HasArg, RestArgs, Render, Matches, Printed;
    var p, rest := 0, args;
    ghost var done: seq<char> := [];
    ind := 0;
    WroteNothing(str[..], 0, max);
    assert fmt[0..] == fmt;
    while p < |fmt| && ind < max
      invariant p <= |fmt| && ind <= max && Matches(fmt[p..], rest)
      invariant Render(fmt, args) == done + Render(fmt[p..], rest)
      invariant Wrote(old(str[..]), str[..], 0, max, done, ind)
    {
      NextText(fmt, p, rest);
      ghost var before, text := str[..], if fmt[p] != '%' then [fmt[p]] else Directive(fmt[p + 1], rest);
      var n := 1;
      if fmt[p] != '%' {
        PutChar(str, ind, max, fmt[p]);
        p := p + 1;
      } else {
        n := PutDirective(str, ind, max, fmt[p + 1], rest);
        rest := RestArgs(fmt[p + 1], rest);
        p := p + 2;
      }
      WroteBoth(old(str[..]), before, str[..], 0, max, done, text, ind, n);
      Assoc(done, text, Render(fmt[p..], rest));
      done := done + text;
      ind := ind + n;
    }
    WroteAll(old(str[..]), str[..], max, done, fmt[p..], rest, ind);
    str[ind] := '\0';
  }

  /** Told the size of its buffer, vsnprintf leaves the byte behind it alone exactly when the text is shorter. */
  lemma OverrunIff(before: seq<char>, max: nat, text: seq<char>)
    requires max < |before| && before[max] != '\0'
    ensures Printed(before, max, text)[max] == before[max] <==> |text| < max
    ensures |Printed(before, max, text)| == |before|
    ensures forall k :: max < k < |before| ==> Printed(before, max, text)[k] == before[k]
  {
    var n := Min(|text|, max);
    assert |text[..n] + ['\0']| == n + 1;
  }

  /** The 128-byte buffer of debug and panic, told its size, with a string of 128 characters: the NUL goes behind it. */
  lemma DebugOverrun(before: seq<char>)
    requires |before| > 128
    ensures var arg := Str(Some(seq(128, _ => 'x')));
            && Matches("%s", [arg]) && |Render("%s", [arg])| == 128
            && Printed(before, 128, Render("%s", [arg]))[128] == '\0'
  {
    RenderOne('s', Str(Some(seq(128, _ => 'x'))));
    assert "%s" == ['%', 's'];
  }

  // ------------------------------------------------------------------ strtol

  /** Wrapping at every step is wrapping once. */
  lemma LongStep(v: int, base: int, d: int)
    ensures Long(Long(Long(v) * base) + d) == Long(v * base + d)
  {
    var k := (v - Long(v)) / 0x1_0000_0000;
    assert v == Long(v) + 0x1_0000_0000 * k;
    Wraps(Long(v) * base, k * base);
    assert v * base == Long(v) * base + 0x1_0000_0000 * (k * base) by {
      assert (Long(v) + 0x1_0000_0000 * k) * base == Long(v) * base + 0x1_0000_0000 * (k * base);
    }
    Adds(v * base, d);
  }

  lemma Wraps(x: int, k: int)
    ensures Long(x + 0x1_0000_0000 * k) == Long(x)
  {
  }

  lemma Adds(x: int, d: int)
    ensures Long(Long(x) + d) == Long(x + d)
  {
    var k := (x - Long(x)) / 0x1_0000_0000;
    assert x == Long(x) + 0x1_0000_0000 * k;
    Wraps(Long(x) + d, k);
  }

  lemma Negates(x: int)
    ensures Long(-Long(x)) == Long(-x)
  {
    var k := (x - Long(x)) / 0x1_0000_0000;
    assert x == Long(x) + 0x1_0000_0000 * k;
    Wraps(-Long(x), -k);
  }

  lemma {:induction false} SpacesIs(s: seq<char>, k: nat)
    requires k <= |s| && (k < |s| ==> !IsSpace(s[k])) && forall i :: 0 <= i < k ==> IsSpace(s[i])
    ensures Spaces(s) == k
  {
    if k > 0 {
      forall i | 0 <= i < k - 1
        ensures IsSpace(s[1..][i])
      {
        assert IsSpace(s[i + 1]);
      }
      SpacesIs(s[1..], k - 1);
    }
  }

  lemma {:induction false} TokenIs(s: seq<char>, k: nat)
    requires k <= |s| && (k < |s| ==> IsSpace(s[k])) && forall i :: 0 <= i < k ==> !IsSpace(s[i])
    ensures Token(s) == s[..k]
  {
    if k > 0 {
      forall i | 0 <= i < k - 1
        ensures !IsSpace(s[1..][i])
      {
        assert !IsSpace(s[i + 1]);
      }
      TokenIs(s[1..], k - 1);
    }
  }

  /** The digit loop of strtol, from position `start` on. */
  method ReadDigits(nptr: seq<char>, start: nat, base: int) returns (n: int)
    requires start <= |nptr|
    ensures n == Long(Value(Token(nptr[start..]), base))
  {
    hide Value, Long, Token, IsSpace;
    var p := start;
    n := 0;
    ValueOfNothing(base);
    assert nptr[start..start] == [];
    while p < |nptr| && !IsSpace(nptr[p])
      invariant start <= p <= |nptr| && forall i :: start <= i < p ==> !IsSpace(nptr[i])
      invariant n == Long(Value(nptr[start..p], base))
    {
      NextDigit(nptr[start..p], nptr[p], base);
      assert nptr[start..p + 1] == nptr[start..p] + [nptr[p]];
      n := Long(n * base);
      n := Long(n + (nptr[p] as int - 48));
      p := p + 1;
    }
    forall i | 0 <= i < p - start
      ensures !IsSpace(nptr[start..][i])
    {
      assert nptr[start..][i] == nptr[start + i];
    }
    TokenIs(nptr[start..], p - start);
    assert nptr[start..][..p - start] == nptr[start..p];
  }

  method StrtolRun(nptr: seq<char>, base: int) returns (n: int)
    ensures n == Strtol(nptr, base)
  {
    hide Value, Long, Token, Spaces, IsSpace;
    var positive, p := true, 0;
    while p < |nptr| && IsSpace(nptr[p])
      invariant p <= |nptr| && forall i :: 0 <= i < p ==> IsSpace(nptr[i])
    {
      p := p + 1;
    }
    SpacesIs(nptr, p);
    ghost var word := nptr[p..];
    if p < |nptr| && nptr[p] == '+' {
      assert word[0] == '+' && word[1..] == nptr[p + 1..];
      positive := true;
      p := p + 1;
    } else if p < |nptr| && nptr[p] == '-' {
      assert word[0] == '-' && word[1..] == nptr[p + 1..];
      positive := false;
      p := p + 1;
    }
    n := ReadDigits(nptr, p, base);
    if !positive {
      Negates(Value(Token(nptr[p..]), base));
      n := Long(-n);
    }
  }

  lemma ValueOfNothing(base: int)
    ensures Value([], base) == 0 && Long(0) == 0
  {
  }

  lemma NextDigit(s: seq<char>, c: char, base: int)
    ensures Long(Long(Long(Value(s, base)) * base) + (c as int - 48)) == Long(Value(s + [c], base))
  {
    LongStep(Value(s, base), base, c as int - 48);
    assert (s + [c])[..|s|] == s;
  }

  // ------------------------------------------------------------------ printed and read back

  lemma RenderOne(c: char, arg: Arg)
    requires c != '%' && HasArg(c, [arg])
    ensures Matches(['%', c], [arg]) && Render(['%', c], [arg]) == Directive(c, [arg])
  {
    hide Directive, HasArg;
    assert ['%', c][2..] == [] && Render([], RestArgs(c, [arg])) == [];
    assert Directive(c, [arg]) + [] == Directive(c, [arg]);
  }

  /** `text` is the numeral of `u`. */
  predicate Denotes(text: seq<char>, u: nat, base: nat) {
    Numeral(text, base) && Reads(text, base) == u
  }

  /**
   What each directive prints: %u, %h and %b the numeral in base ten, sixteen and two, %i one with a minus
   sign before it if the number is negative, %c and %s their argument, %s of nil "(null)", %% a percent
   sign, and any other character nothing.
   */
  lemma DirectivesMean(i: int, u: nat, c: char, s: seq<char>, other: char)
    requires -0x8000_0000 <= i < 0x8000_0000 && u < WRAP && other !in {'%', 'i', 'u', 'h', 'b', 'c', 's'}
    ensures Matches("%u", [Uint(u)]) && Denotes(Render("%u", [Uint(u)]), u, 10)
    ensures Matches("%h", [Uint(u)]) && Denotes(Render("%h", [Uint(u)]), u, 16)
    ensures Matches("%b", [Uint(u)]) && Denotes(Render("%b", [Uint(u)]), u, 2)
    ensures Matches("%i", [Int(i)])
    ensures i >= 0 ==> Denotes(Render("%i", [Int(i)]), i, 10)
    ensures i < 0 ==> var text := Render("%i", [Int(i)]); text != [] && text[0] == '-' && Denotes(text[1..], -i, 10)
    ensures Matches("%c", [Char(c)]) && Render("%c", [Char(c)]) == [c]
    ensures Matches("%s", [Str(Some(s))]) && Render("%s", [Str(Some(s))]) == s
    ensures Matches("%s", [Str(None)]) && Render("%s", [Str(None)]) == "(null)"
    ensures Matches("%%", []) && Render("%%", []) == "%"
    ensures Matches(['%', other], []) && Render(['%', other], []) == []
  {
    hide Numeral, Reads, Render, Matches, Digits;
    RenderOne('u', Uint(u));
    RenderOne('h', Uint(u));
    RenderOne('b', Uint(u));
    RenderOne('i', Int(i));
    RenderOne('c', Char(c));
    RenderOne('s', Str(Some(s)));
    RenderOne('s', Str(None));
    RenderNone('%');
    RenderNone(other);
    DigitsAreNumeral(u, 10);
    DigitsAreNumeral(u, 16);
    DigitsAreNumeral(u, 2);
    DigitsAreNumeral(if i < 0 then -i else i, 10);
    hide Directive, Worth, Denotes;
  }

  lemma RenderNone(c: char)
    requires HasArg(c, [])
    ensures Matches(['%', c], []) && Render(['%', c], []) == Directive(c, [])
  {
    hide Directive, HasArg;
    assert ['%', c][2..] == [] && Render([], RestArgs(c, [])) == [];
    assert Directive(c, []) + [] == Directive(c, []);
  }

  /** The arguments a format leaves over. */
  function Left(fmt: seq<char>, args: seq<Arg>): seq<Arg>
    requires Matches(fmt, args)
  {
    if fmt == [] then args
    else if fmt[0] != '%' then Left(fmt[1..], args)
    else Left(fmt[2..], RestArgs(fmt[1], args))
  }

  lemma MoreArgs(c: char, xs: seq<Arg>, ys: seq<Arg>)
    requires HasArg(c, xs)
    ensures HasArg(c, xs + ys) && Directive(c, xs + ys) == Directive(c, xs)
    ensures RestArgs(c, xs + ys) == RestArgs(c, xs) + ys
  {
    hide Digits, SignedDigits;
    if xs != [] {
      assert (xs + ys)[0] == xs[0] && (xs + ys)[1..] == xs[1..] + ys;
    }
  }

  /** A format that uses up its arguments, followed by another: their texts one after the other. */
  lemma {:induction false} RenderConcat(a: seq<char>, b: seq<char>, xs: seq<Arg>, ys: seq<Arg>)
    requires Matches(a, xs) && Left(a, xs) == [] && Matches(b, ys)
    ensures Matches(a + b, xs + ys) && Render(a + b, xs + ys) == Render(a, xs) + Render(b, ys)
    ensures Left(a + b, xs + ys) == Left(b, ys)
    decreases |a|
  {
    hide HasArg, Directive, RestArgs;
    if a == [] {
      assert a + b == b && xs + ys == ys;
    } else if a[0] != '%' {
      assert (a + b)[0] == a[0] && (a + b)[1..] == a[1..] + b;
      RenderConcat(a[1..], b, xs, ys);
      Assoc([a[0]], Render(a[1..], xs), Render(b, ys));
    } else {
      assert (a + b)[0] == a[0] && (a + b)[1] == a[1] && (a + b)[2..] == a[2..] + b;
      MoreArgs(a[1], xs, ys);
      RenderConcat(a[2..], b, RestArgs(a[1], xs), ys);
      Assoc(Directive(a[1], xs), Render(a[2..], RestArgs(a[1], xs)), Render(b, ys));
    }
  }

  /** Given room, strtol reads back what %i, %u and %b print: any int, and any unsigned below 2^31. */
  lemma FormatRoundTrip(i: int, u: nat)
    requires -0x8000_0000 <= i < 0x8000_0000 && u < 0x8000_0000
    ensures Matches("%i", [Int(i)]) && Strtol(Render("%i", [Int(i)]), 10) == i
    ensures Matches("%u", [Uint(u)]) && Strtol(Render("%u", [Uint(u)]), 10) == u
    ensures Matches("%b", [Uint(u)]) && Strtol(Render("%b", [Uint(u)]), 2) == u
  {
    RenderOne('i', Int(i));
    RenderOne('u', Uint(u));
    RenderOne('b', Uint(u));
    hide Strtol, Digits, SignedDigits, Render, Matches;
    SignedRoundTrip(i);
    RoundTrip(u, 10);
    RoundTrip(u, 2);
  }
}
