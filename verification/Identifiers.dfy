/** Thread identifiers: `name[tid]`, printed by `get_thread_identifier` and read back by
    `extract_tid_from_identifier`. */
module Identifiers {

  datatype Option<+T> = None | Some(value: T)

  const NPOS_MODULUS: int := 0x1_0000_0000_0000_0000
  const INT_MIN: int := -0x8000_0000
  const INT_MAX: int := 0x7fff_ffff

  /** `pid_t`. */
  type Tid = t: int | INT_MIN <= t <= INT_MAX

  /** Strings whose length, with the bracketed number added, is a `size_t`. */
  ghost predicate Storable(name: string) {
    |name| < NPOS_MODULUS / 2
  }

  // ---------------------------------------------------------------- std::to_string

  predicate IsDigit(c: char) { '0' <= c <= '9' }

  function Digit(d: int): (c: char)
    requires 0 <= d < 10
    ensures IsDigit(c)
  {
    "0123456789"[d]
  }

  function DigitValue(c: char): (d: int)
    requires IsDigit(c)
  {
    c as int - '0' as int
  }

  function Decimal(n: nat): string {
    if n < 10 then [Digit(n)] else Decimal(n / 10) + [Digit(n % 10)]
  }

  function ToString(i: int): string {
    if i < 0 then "-" + Decimal(-i) else Decimal(i)
  }

  // ---------------------------------------------------------------- std::stoi

  predicate IsSpace(c: char) {
    c == ' ' || 9 <= c as int <= 13
  }

  function SkipSpace(s: string): string {
    if s != "" && IsSpace(s[0]) then SkipSpace(s[1..]) else s
  }

  function DigitPrefix(s: string): (p: string)
    ensures forall c :: c in p ==> IsDigit(c)
  {
    if s != "" && IsDigit(s[0]) then [s[0]] + DigitPrefix(s[1..]) else ""
  }

  function Value(digits: string): (n: nat)
    requires forall c :: c in digits ==> IsDigit(c)
  {
    if digits == "" then 0
    else Value(digits[..|digits| - 1]) * 10 + DigitValue(digits[|digits| - 1])
  }

  predicate IsSign(c: char) { c == '-' || c == '+' }

  /** What follows the optional sign. */
  function Unsigned(s: string): string {
    if s != "" && IsSign(s[0]) then s[1..] else s
  }

  function SignedValue(negative: bool, digits: string): Option<Tid>
    requires forall c :: c in digits ==> IsDigit(c)
  {
    if digits == "" then None
    else
      var v := if negative then 0 - Value(digits) else Value(digits) + 0;
      if INT_MIN <= v <= INT_MAX then Some(v) else None
  }

  /** `None` stands for the exceptions `invalid_argument` and `out_of_range`. */
  function Stoi(s: string): Option<Tid> {
    var u := SkipSpace(s);
    SignedValue(u != "" && u[0] == '-', DigitPrefix(Unsigned(u)))
  }

  // ---------------------------------------------------------------- the two functions

  /** `std::string::find` of one character. */
  function Find(s: string, c: char): (r: Option<nat>)
    ensures r.None? <==> c !in s
    ensures r.Some? ==> r.value < |s| && s[r.value] == c && c !in s[..r.value]
  {
    if s == "" then None
    else if s[0] == c then Some(0)
    else
      match Find(s[1..], c)
      case None => None
      case Some(i) =>
        assert s[..i + 1] == [s[0]] + s[1..][..i];
        Some(i + 1)
  }

  /** `std::string::substr`: the length is clamped to what is there. */
  function Substr(s: string, pos: nat, len: nat): string
    requires pos <= |s|
  {
    if pos + len <= |s| then s[pos..pos + len] else s[pos..]
  }

  function GetThreadIdentifier(name: string, tid: int): string {
    name + "[" + ToString(tid) + "]"
  }

  /** The text between the brackets.  Its length is computed in `size_t` and wraps around when the
      first ']' comes before the first '['. */
  function Bracketed(identifier: string): Option<string> {
    match (Find(identifier, '['), Find(identifier, ']'))
    case (Some(open), Some(close)) =>
      Some(Substr(identifier, open + 1, (close - open - 1) % NPOS_MODULUS))
    case _ => None
  }

  function ExtractTid(identifier: string): Option<Tid> {
    match Bracketed(identifier)
    case Some(text) => Stoi(text)
    case None => Some(0)
  }

  // ---------------------------------------------------------------- reading numbers back

  /** Digits count in tens ... */
  lemma ValueStep(digits: string, c: char)
    requires (forall d :: d in digits ==> '0' <= d <= '9') && '0' <= c <= '9'
    ensures Value("") == 0 && Value(digits + [c]) == 10 * Value(digits) + (c as int - '0' as int)
  {
    assert (digits + [c])[..|digits|] == digits;
  }

  /** ... and are printed without leading zeros, a negative number behind a minus sign. */
  lemma {:induction false} PrintedDigits(n: nat)
    ensures Decimal(n) != "" && (forall c :: c in Decimal(n) ==> '0' <= c <= '9') && (Decimal(n)[0] == '0' <==> n == 0)
    ensures n > 0 ==> ToString(n) == Decimal(n) && ToString(0 - n) == "-" + Decimal(n)
  {
    DigitRoundTrip(n % 10);
    if n >= 10 {
      PrintedDigits(n / 10);
    }
  }

  lemma {:induction false} SkipsSpace(space: string, rest: string)
    requires (forall c :: c in space ==> c == ' ' || 9 <= c as int <= 13) && (rest != "" ==> !IsSpace(rest[0]))
    ensures SkipSpace(space + rest) == rest
  {
    if space == "" {
      assert space + rest == rest;
    } else {
      assert (space + rest)[1..] == space[1..] + rest;
      assert space[0] in space && forall c :: c in space[1..] ==> c in space;
      SkipsSpace(space[1..], rest);
    }
  }

  lemma {:induction false} TakesDigits(digits: string, rest: string)
    requires (forall c :: c in digits ==> '0' <= c <= '9') && (rest != "" ==> !('0' <= rest[0] <= '9'))
    ensures DigitPrefix(digits + rest) == digits
  {
    if digits == "" {
      assert digits + rest == rest;
    } else {
      assert (digits + rest)[1..] == digits[1..] + rest;
      assert digits[0] in digits && forall c :: c in digits[1..] ==> c in digits;
      TakesDigits(digits[1..], rest);
      assert digits == [digits[0]] + digits[1..];
    }
  }

  /** What `std::stoi` reads: white space, one sign at most, digits, and then anything else.  Without a
      digit and outside the range of an `int` it throws. */
  lemma StoiReads(space: string, sign: string, digits: string, rest: string)
    requires forall c :: c in space ==> c == ' ' || 9 <= c as int <= 13
    requires sign == "" || sign == "+" || sign == "-"
    requires (forall c :: c in digits ==> '0' <= c <= '9') && (rest != "" ==> !('0' <= rest[0] <= '9'))
    requires digits == "" && sign == "" && rest != "" ==> !IsSpace(rest[0]) && !IsSign(rest[0])
    ensures var v := if sign == "-" then 0 - Value(digits) else Value(digits) + 0;
      Stoi(space + (sign + (digits + rest))) ==
        if digits == "" || v < -0x8000_0000 || v > 0x7fff_ffff then None else Some(v)
  {
    var body := digits + rest;
    assert digits != "" ==> body[0] == digits[0] && digits[0] in digits;
    assert digits == "" ==> body == rest;
    SignSplit(sign, body);
    SkipsSpace(space, sign + body);
    TakesDigits(digits, rest);
    hide SkipSpace, DigitPrefix, Unsigned, Value, IsSpace;
  }

  lemma SignSplit(sign: string, body: string)
    requires sign == "" || sign == "+" || sign == "-"
    requires sign == "" && body != "" ==> !IsSpace(body[0]) && !IsSign(body[0])
    ensures var u := sign + body;
      Unsigned(u) == body && (u != "" && u[0] == '-' <==> sign == "-") && (u != "" ==> !IsSpace(u[0]))
  {
    var u := sign + body;
    if sign == "" {
      assert u == body;
    } else {
      assert u[1..] == body;
    }
  }

  /** Text that ends a number wherever the number parser stands. */
  predicate Stops(s: string) {
    s == "" || s[0] == '[' || s[0] == ']'
  }

  lemma {:induction false} SkipSpaceStops(x: string, y: string)
    requires Stops(y)
    ensures SkipSpace(x + y) == SkipSpace(x) + y
  {
    if x == "" {
      assert x + y == y;
    } else if IsSpace(x[0]) {
      assert (x + y)[1..] == x[1..] + y;
      SkipSpaceStops(x[1..], y);
    }
  }

  lemma {:induction false} DigitPrefixStops(x: string, y: string)
    requires Stops(y)
    ensures DigitPrefix(x + y) == DigitPrefix(x)
  {
    if x == "" {
      assert x + y == y;
    } else if IsDigit(x[0]) {
      assert (x + y)[1..] == x[1..] + y;
      DigitPrefixStops(x[1..], y);
    }
  }

  lemma StoiStops(x: string, y: string)
    requires Stops(y)
    ensures Stoi(x + y) == Stoi(x)
  {
    SkipSpaceStops(x, y);
    var u := SkipSpace(x);
    if u == "" {
      assert u + y == y;
      DigitPrefixStops("", y);
      assert "" + y == y;
      assert Unsigned(y) == y;
    } else {
      assert Unsigned(u + y) == Unsigned(u) + y by {
        if IsSign(u[0]) { assert (u + y)[1..] == u[1..] + y; }
      }
      DigitPrefixStops(Unsigned(u), y);
    }
  }

  lemma DigitRoundTrip(d: int)
    requires 0 <= d < 10
    ensures DigitValue(Digit(d)) == d
  {}

  lemma {:induction false} DecimalRoundTrip(n: nat)
    ensures 1 <= |Decimal(n)| <= n + 1 && forall c :: c in Decimal(n) ==> IsDigit(c)
    ensures Value(Decimal(n)) == n
  {
    if n >= 10 {
      DecimalRoundTrip(n / 10);
      DigitRoundTrip(n % 10);
      assert Decimal(n)[..|Decimal(n)| - 1] == Decimal(n / 10);
    } else {
      DigitRoundTrip(n);
      assert Decimal(n)[..0] == "";
    }
  }

  lemma {:induction false} DigitPrefixAll(s: string)
    requires forall c :: c in s ==> IsDigit(c)
    ensures DigitPrefix(s) == s
  {
    if s != "" {
      DigitPrefixAll(s[1..]);
    }
  }

  lemma StoiDigits(d: string)
    requires d != "" && forall c :: c in d ==> IsDigit(c)
    ensures Stoi(d) == SignedValue(false, d)
    ensures Stoi("-" + d) == SignedValue(true, d)
  {
    DigitPrefixAll(d);
    assert d[0] in d;
    var m := "-" + d;
    assert m[0] == '-' && m[1..] == d;
    assert SkipSpace(d) == d && SkipSpace(m) == m;
    assert Unsigned(d) == d && Unsigned(m) == d;
  }

  lemma StoiToString(i: Tid)
    ensures Stoi(ToString(i)) == Some(i)
    ensures '[' !in ToString(i) && |ToString(i)| < NPOS_MODULUS / 8
  {
    var n: nat := if i < 0 then 0 - i else 0 + i;
    DecimalRoundTrip(n);
    StoiDigits(Decimal(n));
  }

  // ---------------------------------------------------------------- main results

  lemma ExtractPlain(name: string, number: string)
    requires '[' !in name && |name| + |number| + 2 < NPOS_MODULUS
    ensures ExtractTid(name + "[" + number + "]") == Stoi(number)
  {
    hide ExtractTid, Stoi;
    FirstBracket(name, "", number);
    assert name + "[" + "" + number + "]" == name + "[" + number + "]";
    assert "" + number + "]" == number + "]";
    StoiStops(number, "]");
  }

  lemma ExtractBracketed(before: string, after: string, number: string)
    requires '[' !in before && |before| + |after| + |number| + 3 < NPOS_MODULUS
    ensures ExtractTid(before + "[" + after + "[" + number + "]") == Stoi(after)
  {
    hide ExtractTid;
    FirstBracket(before, after + "[", number);
    Regroup(before, after, number);
    hide Stoi;
    StoiStops(after, "[" + number + "]");
  }

  lemma Regroup(before: string, after: string, number: string)
    ensures before + "[" + (after + "[") + number + "]" == before + "[" + after + "[" + number + "]"
    ensures after + "[" + number + "]" == after + ("[" + number + "]")
  {}

  /** What reading back an identifier yields, for every name and every tid: the tid if the name has
      no '[', and otherwise whatever number follows the first '[' of the name. */
  lemma ExtractOfIdentifier(name: string, tid: Tid)
    requires Storable(name)
    ensures '[' !in name ==> ExtractTid(GetThreadIdentifier(name, tid)) == Some(tid)
    ensures '[' in name ==>
      ExtractTid(GetThreadIdentifier(name, tid)) == Stoi(name[Find(name, '[').value + 1..])
  {
    StoiToString(tid);
    if '[' !in name {
      ExtractPlain(name, ToString(tid));
    } else {
      SplitAtBracket(name);
      var b := Find(name, '[').value;
      ExtractBracketed(name[..b], name[b + 1..], ToString(tid));
    }
  }

  lemma SplitAtBracket(name: string)
    requires '[' in name
    ensures var b := Find(name, '[').value; name == name[..b] + "[" + name[b + 1..]
  {}

  /** The number read is the one after the first '[', as far as it goes. */
  lemma FirstBracket(before: string, after: string, number: string)
    requires '[' !in before && |before| + |after| + |number| + 2 < NPOS_MODULUS
    ensures ExtractTid(before + "[" + after + number + "]") == Stoi(after + number + "]")
  {
    hide Find, Stoi;
    var id := before + "[" + after + number + "]";
    assert id[|id| - 1] == ']' && id[|before|] == '[' && id[..|before|] == before;
    FirstAt(id, '[', |before|);
    var cut, rest := CutAtClose(id, |before|, Find(id, ']').value);
    assert id[|before| + 1..] == after + number + "]";
    StoiStops(cut, rest);
  }

  lemma FirstAt(s: string, c: char, i: nat)
    requires i < |s| && s[i] == c && c !in s[..i]
    ensures Find(s, c) == Some(i)
  {
    hide Find;
    var j := Find(s, c).value;
    assert forall k :: 0 <= k < i ==> s[k] in s[..i];
    assert forall k :: 0 <= k < j ==> s[k] in s[..j];
  }

  lemma WrappedLength(open: nat, close: nat)
    requires open < NPOS_MODULUS && close < NPOS_MODULUS && open != close
    ensures (close - open - 1) % NPOS_MODULUS ==
      if close > open then close - open - 1 else close - open - 1 + NPOS_MODULUS
  {}

  /** Cutting at the first ']' only drops text that cannot belong to the number, and when the cut
      length wraps nothing is dropped. */
  lemma CutAtClose(id: string, open: nat, close: nat) returns (cut: string, rest: string)
    requires |id| < NPOS_MODULUS && Find(id, '[') == Some(open) && Find(id, ']') == Some(close)
    ensures Bracketed(id) == Some(cut) && id[open + 1..] == cut + rest && Stops(rest)
  {
    hide Find;
    WrappedLength(open, close);
    if close > open {
      cut, rest := id[open + 1..close], id[close..];
    } else {
      cut, rest := id[open + 1..], "";
    }
  }

  /** Exactly when an identifier reads back as its own tid. */
  lemma RoundTripExactly(name: string, tid: Tid)
    requires Storable(name)
    ensures ExtractTid(GetThreadIdentifier(name, tid)) == Some(tid) <==>
      '[' !in name || Stoi(name[Find(name, '[').value + 1..]) == Some(tid)
  {
    ExtractOfIdentifier(name, tid);
  }

  lemma NoLaterBracket(name: string, d: string)
    requires '[' !in d
    ensures forall j :: |name| < j < |name| + |d| + 2 ==> (name + "[" + d + "]")[j] != '['
  {
    var id := name + "[" + d + "]";
    forall j | |name| < j < |id| ensures id[j] != '[' {
      assert j < |id| - 1 ==> id[j] == d[j - |name| - 1] && d[j - |name| - 1] in d;
    }
  }

  /** Distinct threads have distinct identifiers, whatever their names contain. */
  lemma IdentifierInjective(name1: string, tid1: Tid, name2: string, tid2: Tid)
    requires GetThreadIdentifier(name1, tid1) == GetThreadIdentifier(name2, tid2)
    ensures name1 == name2 && tid1 == tid2
  {
    var id := GetThreadIdentifier(name1, tid1);
    var d1, d2 := ToString(tid1), ToString(tid2);
    StoiToString(tid1);
    StoiToString(tid2);
    NoLaterBracket(name1, d1);
    NoLaterBracket(name2, d2);
    assert id == name1 + "[" + d1 + "]" && id == name2 + "[" + d2 + "]";
    assert id[|name1|] == '[' && id[|name2|] == '[';
    assert id[..|name1|] == name1 && id[..|name2|] == name2;
    assert id[|name1| + 1..|id| - 1] == d1 && id[|name2| + 1..|id| - 1] == d2;
  }

  /** A name with a bracket of its own makes the reader return another thread's tid, or throw. */
  lemma BracketedNamesMisread(name: string, other: Tid, tid: Tid)
    requires Storable(name) && '[' !in name
    ensures ExtractTid(GetThreadIdentifier(name + "[" + ToString(other), tid)) == Some(other)
    ensures ExtractTid(GetThreadIdentifier(name + "[", tid)) == None
  {
    StoiToString(other);
    StoiToString(tid);
    ExtractBracketed(name, ToString(other), ToString(tid));
    ExtractBracketed(name, "", ToString(tid));
    EmptyIsNoNumber();
    assert name + "[" + "" == name + "[";
  }

  lemma EmptyIsNoNumber()
    ensures Stoi("") == None
  {}

  // ---------------------------------------------------------------- the name cache

  /** A `comm` file's first line without line ends; an unreadable file counts as empty. */
  function Stripped(line: string): (s: string)
    ensures '\n' !in s && '\r' !in s
  {
    if line == "" then ""
    else if line[0] == '\n' || line[0] == '\r' then Stripped(line[1..])
    else [line[0]] + Stripped(line[1..])
  }

  /** All other characters are kept, in their order: piece by piece, and whole where there are no line ends. */
  lemma {:induction false} StrippedKeepsOrder(before: string, c: char, after: string)
    ensures Stripped(before + [c] + after) == Stripped(before) + (if c == '\n' || c == '\r' then "" else [c]) + Stripped(after)
  {
    var line := before + [c] + after;
    if before == "" {
      assert line[0] == c && line[1..] == after;
    } else {
      assert line[0] == before[0] && line[1..] == before[1..] + [c] + after;
      StrippedKeepsOrder(before[1..], c, after);
    }
  }

  lemma {:induction false} StrippedKeepsAll(line: string)
    requires '\n' !in line && '\r' !in line
    ensures Stripped(line) == line
  {
    if line != "" {
      StrippedKeepsAll(line[1..]);
      assert line == [line[0]] + line[1..];
    }
  }

  /** The names `get_thread_name` has handed out.  `comm` and `taskComm` are what the two `/proc`
      files would say now. */
  class ThreadNames {
    const targetPid: int
    var cache: map<Tid, string>

    ghost predicate Valid()
      reads this
    {
      forall t :: t in cache ==> cache[t] != ""
    }

    constructor (targetPid: int)
      ensures Valid() && this.targetPid == targetPid && cache == map[]
    {
      this.targetPid := targetPid;
      cache := map[];
    }

    function FreshName(tid: Tid, comm: string, taskComm: string): string {
      if Stripped(comm) != "" then Stripped(comm)
      else if targetPid > 0 && Stripped(taskComm) != "" then Stripped(taskComm)
      else "thread-" + ToString(tid)
    }

    /** The first answer for a tid is the answer for ever, whatever the files say later. */
    method GetThreadName(tid: Tid, comm: string, taskComm: string) returns (name: string)
      requires Valid()
      modifies this
      ensures Valid() && cache == old(cache)[tid := name]
      ensures tid in old(cache) ==> name == old(cache)[tid]
      ensures tid !in old(cache) ==> name == FreshName(tid, comm, taskComm)
      ensures tid !in old(cache) && Stripped(comm) != "" ==> name == Stripped(comm)
      ensures tid !in old(cache) && Stripped(comm) == "" && targetPid > 0 && Stripped(taskComm) != "" ==> name == Stripped(taskComm)
      ensures tid !in old(cache) && Stripped(comm) == "" && (targetPid <= 0 || Stripped(taskComm) == "") ==> name == "thread-" + ToString(tid)
    {
      if tid in cache {
        return cache[tid];
      }
      name := Stripped(comm);
      if name == "" && targetPid > 0 {
        name := Stripped(taskComm);
      }
      if name == "" {
        name := "thread-" + ToString(tid);
      }
      cache := cache[tid := name];
    }

    /** `get_thread_identifier` with its cache: distinct from the identifier of every other known tid. */
    method Identify(tid: Tid, comm: string, taskComm: string) returns (id: string)
      requires Valid()
      modifies this
      ensures Valid() && tid in cache && id == GetThreadIdentifier(cache[tid], tid)
      ensures forall t :: t in old(cache) ==> t in cache && cache[t] == old(cache)[t]
      ensures forall t :: t in cache && t != tid ==> GetThreadIdentifier(cache[t], t) != id
    {
      var name := GetThreadName(tid, comm, taskComm);
      id := name + "[" + ToString(tid) + "]";
      forall t | t in cache && t != tid ensures GetThreadIdentifier(cache[t], t) != id {
        if GetThreadIdentifier(cache[t], t) == id {
          IdentifierInjective(cache[t], t, name, tid);
        }
      }
    }
  }
}
