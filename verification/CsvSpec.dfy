/** Columns of one CSV line as texts: where they end, and what trimming and unescaping make of them. */
module CsvSpec {
  import opened Wrappers

  /** The quote policies. */
  datatype Policy = NoQuote(sep: char) | DoubleQuote(sep: char, quote: char)

  predicate Sound(p: Policy) { p.sep != '\0' && (p.DoubleQuote? ==> p.quote != '\0' && p.quote != p.sep) }

  predicate IsQuote(p: Policy, c: char) { p.DoubleQuote? && c == p.quote }

  /** Lines are C strings. */
  predicate NoNul(s: string) { forall i :: 0 <= i < |s| ==> s[i] != '\0' }

  // ----- where a column ends

  /** The scan for a column's end as an automaton; None when the line ends inside quotes. */
  function EndFrom(p: Policy, s: string, open: bool): (r: Option<nat>)
    ensures r.Some? ==> r.value <= |s| && (r.value < |s| ==> s[r.value] == p.sep)
    decreases |s|
  {
    if s == "" then if open then None else Some(0)
    else if !open && s[0] == p.sep then Some(0)
    else match EndFrom(p, s[1..], open != IsQuote(p, s[0]))
      case None => None
      case Some(n) => Some(n + 1)
  }

  function ColumnEnd(p: Policy, s: string): (r: Option<nat>)
    ensures r.Some? ==> r.value <= |s| && (r.value < |s| ==> s[r.value] == p.sep)
  {
    EndFrom(p, s, false)
  }

  /** An odd number of quotes. */
  predicate Odd(p: Policy, s: string) {
    s != "" && (IsQuote(p, s[|s| - 1]) != Odd(p, s[..|s| - 1]))
  }

  lemma {:induction false} OddSplit(p: Policy, s: string, t: string)
    ensures Odd(p, s + t) == (Odd(p, s) != Odd(p, t))
    decreases |t|
  {
    if t == "" {
      assert s + t == s;
    } else {
      assert (s + t)[..|s + t| - 1] == s + t[..|t| - 1];
      OddSplit(p, s, t[..|t| - 1]);
    }
  }

  lemma OddCons(p: Policy, s: string, k: nat)
    requires 0 < k <= |s|
    ensures Odd(p, s[..k]) == (IsQuote(p, s[0]) != Odd(p, s[1..][..k - 1]))
  {
    assert s[..k] == [s[0]] + s[1..][..k - 1];
    OddSplit(p, [s[0]], s[1..][..k - 1]);
    assert [s[0]][..0] == "";
  }

  /** A separator outside quotes, or the line's end outside quotes. */
  predicate EndsAt(p: Policy, s: string, open: bool, k: nat) {
    k <= |s| && (k == |s| || s[k] == p.sep) && open == Odd(p, s[..k])
  }

  /** The first position outside quotes that holds a separator or ends the line; none exactly when the
      line ends inside quotes before any such separator. */
  lemma {:induction false} EndFromIsFirst(p: Policy, s: string, open: bool)
    requires Sound(p)
    ensures var r := EndFrom(p, s, open);
            (r.Some? ==> EndsAt(p, s, open, r.value))
            && forall k :: 0 <= k <= |s| && (r.None? || k < r.value) ==> !EndsAt(p, s, open, k)
    decreases |s|
  {
    assert s[..0] == "";
    if s != "" && (open || s[0] != p.sep) {
      var inside := open != IsQuote(p, s[0]);
      EndFromIsFirst(p, s[1..], inside);
      forall k | 0 < k <= |s| ensures EndsAt(p, s, open, k) == EndsAt(p, s[1..], inside, k - 1) {
        OddCons(p, s, k);
      }
    }
  }

  lemma ColumnEndIff(p: Policy, s: string, e: nat)
    requires Sound(p)
    ensures ColumnEnd(p, s) == Some(e) <==>
              EndsAt(p, s, false, e) && forall k :: 0 <= k < e ==> !EndsAt(p, s, false, k)
    ensures ColumnEnd(p, s).None? <==> forall k :: 0 <= k <= |s| ==> !EndsAt(p, s, false, k)
  {
    EndFromIsFirst(p, s, false);
  }

  // ----- trimming

  function TrimLeft(chars: set<char>, s: string): string {
    if s != "" && s[0] in chars then TrimLeft(chars, s[1..]) else s
  }

  function TrimRight(chars: set<char>, s: string): string {
    if s != "" && s[|s| - 1] in chars then TrimRight(chars, s[..|s| - 1]) else s
  }

  function Trim(chars: set<char>, s: string): string { TrimRight(chars, TrimLeft(chars, s)) }

  predicate AllIn(chars: set<char>, s: string) { forall i :: 0 <= i < |s| ==> s[i] in chars }

  /** Nothing to trim at either end. */
  predicate Bare(chars: set<char>, s: string) { s == "" || (s[0] !in chars && s[|s| - 1] !in chars) }

  lemma {:induction false} SkipLeft(chars: set<char>, l: string, s: string)
    requires AllIn(chars, l) && (s == "" || s[0] !in chars)
    ensures TrimLeft(chars, l + s) == s
    decreases |l|
  {
    if l == "" {
      assert l + s == s;
    } else {
      assert (l + s)[1..] == l[1..] + s;
      SkipLeft(chars, l[1..], s);
    }
  }

  lemma {:induction false} SkipRight(chars: set<char>, s: string, r: string)
    requires AllIn(chars, r) && (s == "" || s[|s| - 1] !in chars)
    ensures TrimRight(chars, s + r) == s
    decreases |r|
  {
    if r == "" {
      assert s + r == s;
    } else {
      assert (s + r)[..|s + r| - 1] == s + r[..|r| - 1];
      SkipRight(chars, s, r[..|r| - 1]);
    }
  }

  /** Trimming takes exactly the padding away, on both sides. */
  lemma TrimOfPadded(chars: set<char>, l: string, f: string, r: string)
    requires AllIn(chars, l) && AllIn(chars, r) && Bare(chars, f)
    ensures Trim(chars, l + f + r) == f
  {
    if f == "" {
      assert AllIn(chars, l + r) && l + f + r == l + r + "";
      SkipLeft(chars, l + r, "");
    } else {
      assert l + f + r == l + (f + r);
      SkipLeft(chars, l, f + r);
      SkipRight(chars, f, r);
    }
  }

  // ----- unescaping

  /** The text between the quotes with pairs of quotes read as one; None when the loop runs past the end,
      since a last quote is paired with the closing one. */
  function Inner(quote: char, s: string): Option<string>
    decreases |s|
  {
    if s == "" then Some("")
    else if s[0] != quote then Prepend(s[0], Inner(quote, s[1..]))
    else if |s| == 1 then None
    else if s[1] == quote then Prepend(quote, Inner(quote, s[2..]))
    else Prepend(quote, Inner(quote, s[1..]))
  }

  function Prepend(c: char, r: Option<string>): Option<string> {
    match r
    case None => None
    case Some(t) => Some([c] + t)
  }

  predicate Wrapped(p: Policy, s: string) {
    p.DoubleQuote? && |s| >= 2 && s[0] == p.quote && s[|s| - 1] == p.quote
  }

  function Unescape(p: Policy, s: string): Option<string> {
    if Wrapped(p, s) then Inner(p.quote, s[1..|s| - 1]) else Some(s)
  }

  /** Only a column that starts and ends with a quote of its own is unescaped, without those two. */
  lemma UnescapeIs(p: Policy, s: string)
    ensures p.DoubleQuote? && |s| >= 2 && s[0] == s[|s| - 1] == p.quote ==> Unescape(p, s) == Inner(p.quote, s[1..|s| - 1])
    ensures p.NoQuote? || |s| < 2 || s[0] != p.quote || s[|s| - 1] != p.quote ==> Unescape(p, s) == Some(s)
  {
    hide Inner;
  }

  /** How many quotes s ends with. */
  function EndingQuotes(quote: char, s: string): nat {
    if s != "" && s[|s| - 1] == quote then 1 + EndingQuotes(quote, s[..|s| - 1]) else 0
  }

  lemma {:induction false} EndingQuotesDrop(quote: char, s: string, n: nat)
    requires n <= |s|
    ensures EndingQuotes(quote, s[n..]) == if EndingQuotes(quote, s) <= |s| - n then EndingQuotes(quote, s) else |s| - n
    decreases |s|
  {
    if n < |s| && s[|s| - 1] == quote {
      EndingQuotesDrop(quote, s[..|s| - 1], n);
      assert s[n..][..|s| - n - 1] == s[..|s| - 1][n..];
    }
  }

  lemma {:induction false} EndingQuotesBound(quote: char, s: string)
    ensures EndingQuotes(quote, s) <= |s|
    ensures EndingQuotes(quote, s) == |s| <==> forall i :: 0 <= i < |s| ==> s[i] == quote
  {
    if s != "" { EndingQuotesBound(quote, s[..|s| - 1]); }
  }

  /** The loop runs past the end exactly when the inner text ends in an odd number of quotes. */
  lemma {:induction false} OverrunIff(quote: char, s: string)
    ensures Inner(quote, s).None? <==> EndingQuotes(quote, s) % 2 == 1
    decreases |s|
  {
    EndingQuotesBound(quote, s);
    if s != "" {
      var n := if |s| > 1 && s[0] == quote && s[1] == quote then 2 else 1;
      EndingQuotesBound(quote, s[n..]);
      EndingQuotesDrop(quote, s, n);
      OverrunIff(quote, s[n..]);
    }
  }

  function Repeat(c: char, n: nat): string { if n == 0 then "" else [c] + Repeat(c, n - 1) }

  /** A run of quotes in front of other text is read as half of them, the odd one out as one. */
  lemma {:induction false} RunsHalve(quote: char, n: nat, t: string)
    requires t != "" && t[0] != quote
    ensures Inner(quote, Repeat(quote, n) + t) == PrependAll(Repeat(quote, (n + 1) / 2), Inner(quote, t))
    decreases n
  {
    var s, r := Repeat(quote, n) + t, Inner(quote, t);
    if n == 0 {
      assert s == t && (r.Some? ==> "" + r.value == r.value);
    } else if n == 1 {
      assert Repeat(quote, 1) == [quote] && s[1..] == t && Repeat(quote, (1 + 1) / 2) == [quote];
    } else {
      RunsHalve(quote, n - 2, t);
      assert Repeat(quote, n) == [quote] + ([quote] + Repeat(quote, n - 2));
      assert s[0] == s[1] == quote && s[2..] == Repeat(quote, n - 2) + t;
      assert (n + 1) / 2 == (n - 2 + 1) / 2 + 1;
      var half := Repeat(quote, (n - 2 + 1) / 2);
      assert r.Some? ==> [quote] + (half + r.value) == [quote] + half + r.value;
    }
  }

  function PrependAll(s: string, r: Option<string>): Option<string> {
    match r
    case None => None
    case Some(t) => Some(s + t)
  }

  /** Text without quotes is read as it is. */
  lemma {:induction false} PlainIsKept(quote: char, s: string, t: string)
    requires forall i :: 0 <= i < |s| ==> s[i] != quote
    ensures Inner(quote, s + t) == PrependAll(s, Inner(quote, t))
    decreases |s|
  {
    var r := Inner(quote, t);
    if s == "" {
      assert s + t == t && (r.Some? ==> s + r.value == r.value);
    } else {
      assert (s + t)[1..] == s[1..] + t;
      PlainIsKept(quote, s[1..], t);
      assert r.Some? ==> [s[0]] + (s[1..] + r.value) == s + r.value;
    }
  }

  // ----- writing: RFC 4180, section 2

  function Doubled(quote: char, f: string): string {
    if f == "" then "" else (if f[0] == quote then [quote, quote] else [f[0]]) + Doubled(quote, f[1..])
  }

  function Quoted(p: Policy, f: string): string
    requires p.DoubleQuote?
  {
    [p.quote] + Doubled(p.quote, f) + [p.quote]
  }

  lemma {:induction false} InnerOfDoubled(quote: char, f: string)
    ensures Inner(quote, Doubled(quote, f)) == Some(f)
  {
    if f != "" {
      InnerOfDoubled(quote, f[1..]);
      var d := Doubled(quote, f);
      if f[0] == quote {
        assert d[2..] == Doubled(quote, f[1..]);
      } else {
        assert d[1..] == Doubled(quote, f[1..]);
      }
      assert [f[0]] + f[1..] == f;
    }
  }

  lemma UnescapeOfQuoted(p: Policy, f: string)
    requires p.DoubleQuote?
    ensures Unescape(p, Quoted(p, f)) == Some(f)
  {
    InnerOfDoubled(p.quote, f);
    assert Quoted(p, f)[1..|Quoted(p, f)| - 1] == Doubled(p.quote, f);
  }

  /** The scan passes over doubled text without leaving the quotes. */
  lemma {:induction false} EndInsideDoubled(p: Policy, f: string, rest: string)
    requires p.DoubleQuote? && Sound(p)
    ensures EndFrom(p, Doubled(p.quote, f) + rest, true) ==
            match EndFrom(p, rest, true) case None => None case Some(n) => Some(|Doubled(p.quote, f)| + n)
  {
    var t := Doubled(p.quote, f) + rest;
    if f == "" {
      assert t == rest;
    } else {
      EndInsideDoubled(p, f[1..], rest);
      var u := Doubled(p.quote, f[1..]) + rest;
      if f[0] == p.quote {
        assert t[1..][1..] == u && t[1..][0] == p.quote;
      } else {
        assert t[1..] == u;
      }
    }
  }

  function Further(n: nat, r: Option<nat>): Option<nat> {
    match r
    case None => None
    case Some(k) => Some(n + k)
  }

  /** Outside quotes the scan passes over text without quotes and separators. */
  lemma {:induction false} EndBehindPlain(p: Policy, s: string, rest: string)
    requires forall i :: 0 <= i < |s| ==> s[i] != p.sep && !IsQuote(p, s[i])
    ensures EndFrom(p, s + rest, false) == Further(|s|, EndFrom(p, rest, false))
    decreases |s|
  {
    if s == "" {
      assert s + rest == rest;
    } else {
      assert (s + rest)[1..] == s[1..] + rest;
      EndBehindPlain(p, s[1..], rest);
    }
  }

  lemma EndBehindQuoted(p: Policy, f: string, rest: string)
    requires p.DoubleQuote? && Sound(p)
    ensures EndFrom(p, Quoted(p, f) + rest, false) == Further(|Quoted(p, f)|, EndFrom(p, rest, false))
  {
    var d := Doubled(p.quote, f);
    var tail := [p.quote] + rest;
    assert (Quoted(p, f) + rest)[1..] == d + tail;
    assert tail[1..] == rest;
    EndInsideDoubled(p, f, tail);
  }
}
