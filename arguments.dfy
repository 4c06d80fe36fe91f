/** `Arguments` (arguments.cpp): a device's option string such as
    `"bias=1,gain=40 agc"`, split at spaces and commas into tokens, each
    token split at its first `=` into a name and a value. The first token
    with a given name decides its value. */
module ArgumentParsing {
  import opened Wrappers

  /** The characters that separate tokens. */
  const Delimiters: set<char> := {' ', ','}

  const Int32Min: int := -0x8000_0000
  const Int32Max: int := 0x7FFF_FFFF

  /** `s.find_first_of(chars, from)`: the first position at or after `from`
      holding one of `chars`; None stands for `npos`. */
  function FindFirstOf(s: string, chars: set<char>, from: nat): (r: Option<nat>)
    decreases |s| - from
    ensures r.Some? ==> from <= r.value < |s| && s[r.value] in chars
    ensures r.Some? ==> forall k :: from <= k < r.value ==> s[k] !in chars
    ensures r.None? ==> forall k :: from <= k < |s| ==> s[k] !in chars
  {
    if from >= |s| then None
    else if s[from] in chars then Some(from)
    else FindFirstOf(s, chars, from + 1)
  }

  /** `s.find_first_not_of(chars, from)`: the first position at or after
      `from` holding none of `chars`. */
  function FindFirstNotOf(s: string, chars: set<char>, from: nat): (r: Option<nat>)
    decreases |s| - from
    ensures r.Some? ==> from <= r.value < |s| && s[r.value] !in chars
    ensures r.Some? ==> forall k :: from <= k < r.value ==> s[k] in chars
    ensures r.None? ==> forall k :: from <= k < |s| ==> s[k] in chars
  {
    if from >= |s| then None
    else if s[from] !in chars then Some(from)
    else FindFirstNotOf(s, chars, from + 1)
  }

  /** The length of the longest prefix of `s` whose characters all
      satisfy `p`. */
  function PrefixWhile(s: string, p: char -> bool): (r: nat)
    ensures r <= |s|
    ensures forall k :: 0 <= k < r ==> p(s[k])
    ensures r < |s| ==> !p(s[r])
  {
    if s == [] || !p(s[0]) then 0 else 1 + PrefixWhile(s[1..], p)
  }

  /** The characterisation above pins the length down. */
  lemma PrefixExact(s: string, p: char -> bool, n: nat)
    requires n <= |s| && forall k :: 0 <= k < n ==> p(s[k])
    requires n < |s| ==> !p(s[n])
    ensures PrefixWhile(s, p) == n
  {
  }

  predicate IsTokenChar(c: char) {
    c !in Delimiters
  }

  /** A token: not empty, and free of delimiters. */
  predicate WellFormedToken(t: string) {
    t != [] && forall k :: 0 <= k < |t| ==> t[k] !in Delimiters
  }

  /** The tokens of an option string: its maximal runs of non-delimiter
      characters, in order. */
  function Tokens(s: string): (r: seq<string>)
    decreases |s|
    ensures forall i :: 0 <= i < |r| ==> WellFormedToken(r[i])
  {
    if s == [] then []
    else if s[0] in Delimiters then Tokens(s[1..])
    else
      var n := PrefixWhile(s, IsTokenChar);
      [s[..n]] + Tokens(s[n..])
  }

  /** Delimiters before a token do not change the tokens. */
  lemma {:induction false} SkipDelimiters(s: string, from: nat, to: nat)
    requires from <= to <= |s|
    requires forall k :: from <= k < to ==> s[k] in Delimiters
    ensures Tokens(s[from..]) == Tokens(s[to..])
    decreases |s| - from
  {
    if from < to {
      assert s[from..][1..] == s[from + 1..];
      SkipDelimiters(s, from + 1, to);
    }
  }

  /** A maximal run of token characters starting at `from` is the next
      token. */
  lemma TokenAt(s: string, from: nat, end: nat)
    requires from < end <= |s|
    requires forall k :: from <= k < end ==> s[k] !in Delimiters
    requires end < |s| ==> s[end] in Delimiters
    ensures Tokens(s[from..]) == [s[from..end]] + Tokens(s[end..])
  {
    var t := s[from..];
    PrefixExact(t, IsTokenChar, end - from);
    assert t[..end - from] == s[from..end] && t[end - from..] == s[end..];
  }

  /** The option string a list of tokens joined by one delimiter. */
  function Join(tokens: seq<string>, separator: char): string
    decreases |tokens|
  {
    if tokens == [] then []
    else if |tokens| == 1 then tokens[0]
    else tokens[0] + [separator] + Join(tokens[1..], separator)
  }

  /** A token followed by a delimiter comes first, and the rest is split
      as if alone. */
  lemma JoinStep(token: string, separator: char, rest: string)
    requires WellFormedToken(token) && separator in Delimiters
    ensures Tokens(token + [separator] + rest) == [token] + Tokens(rest)
  {
    var s := token + [separator] + rest;
    TokenAt(s, 0, |token|);
    SkipDelimiters(s, |token|, |token| + 1);
    assert s[0..] == s && s[0..|token|] == token && s[|token| + 1..] == rest;
  }

  /** A token alone is its only token. */
  lemma LoneToken(token: string)
    requires WellFormedToken(token)
    ensures Tokens(token) == [token]
  {
    TokenAt(token, 0, |token|);
    assert token[0..] == token && token[0..|token|] == token && token[|token|..] == [];
  }

  /** Tokens are exactly what a list of tokens joined by a space or a
      comma splits back into. */
  lemma {:induction false} TokensOfJoin(tokens: seq<string>, separator: char)
    requires separator in Delimiters
    requires forall i :: 0 <= i < |tokens| ==> WellFormedToken(tokens[i])
    ensures Tokens(Join(tokens, separator)) == tokens
    decreases |tokens|
  {
    if |tokens| == 1 {
      LoneToken(tokens[0]);
    } else if |tokens| > 1 {
      TokensOfJoin(tokens[1..], separator);
      JoinStep(tokens[0], separator, Join(tokens[1..], separator));
      assert tokens == [tokens[0]] + tokens[1..];
    }
  }

  /** A token's name and value: split at its first `=`, the value empty
      when there is none. The name never holds an `=`, and the two put
      back together are the token. */
  function Split(token: string): (r: (string, string))
    ensures '=' !in r.0
    ensures '=' in token ==> r.0 + "=" + r.1 == token
    ensures '=' !in token ==> r == (token, "")
  {
    match FindFirstOf(token, {'='}, 0)
    case Some(valuePos) =>
      assert token[..valuePos] + "=" + token[valuePos + 1..] == token;
      (token[..valuePos], token[valuePos + 1..])
    case None => (token, "")
  }

  /** `std::map::insert`: a name already present keeps its value. */
  function Insert(entries: map<string, string>, token: string): map<string, string> {
    var (name, value) := Split(token);
    if name in entries then entries else entries[name := value]
  }

  /** The map the tokens fill, inserted in order. */
  function Build(tokens: seq<string>): map<string, string> {
    if tokens == [] then map[]
    else Insert(Build(tokens[..|tokens| - 1]), tokens[|tokens| - 1])
  }

  /** The index of the first token named `name`, if any. */
  function FirstNamed(tokens: seq<string>, name: string): (r: Option<nat>)
    ensures r.Some? ==> r.value < |tokens| && Split(tokens[r.value]).0 == name
    ensures r.Some? ==> forall j :: 0 <= j < r.value ==> Split(tokens[j]).0 != name
    ensures r.None? ==> forall j :: 0 <= j < |tokens| ==> Split(tokens[j]).0 != name
  {
    if tokens == [] then None
    else
      var prefix := tokens[..|tokens| - 1];
      assert forall j :: 0 <= j < |prefix| ==> prefix[j] == tokens[j];
      match FirstNamed(prefix, name)
      case Some(i) => Some(i)
      case None => if Split(tokens[|tokens| - 1]).0 == name then Some(|tokens| - 1) else None
  }

  /** The map holds a name exactly when some token has it, and then the
      value of the first such token. */
  lemma {:induction false} FirstWins(tokens: seq<string>, name: string)
    ensures name in Build(tokens) <==> FirstNamed(tokens, name).Some?
    ensures name in Build(tokens) ==> Build(tokens)[name] == Split(tokens[FirstNamed(tokens, name).value]).1
  {
    if tokens != [] {
      var prefix := tokens[..|tokens| - 1];
      FirstWins(prefix, name);
      assert forall j :: 0 <= j < |prefix| ==> prefix[j] == tokens[j];
    }
  }

  /** The result of `std::stoi`. */
  datatype IntResult = Int(value: int) | InvalidArgument | OutOfRange

  /** `isspace` in the C locale. */
  predicate IsSpace(c: char) {
    c == ' ' || c == '\t' || c == '\n' || c == '\U{000B}' || c == '\U{000C}' || c == '\r'
  }

  predicate IsDigit(c: char) {
    '0' <= c <= '9'
  }

  function DigitValue(c: char): nat
    requires IsDigit(c)
  {
    c as int - '0' as int
  }

  /** The number a string of decimal digits spells. */
  function DigitsValue(digits: string): nat
    requires forall k :: 0 <= k < |digits| ==> IsDigit(digits[k])
  {
    if digits == [] then 0
    else 10 * DigitsValue(digits[..|digits| - 1]) + DigitValue(digits[|digits| - 1])
  }

  /** `std::stoi` (base 10): skip white space, take an optional sign and
      then as many digits as follow; no digit throws
      `std::invalid_argument`, a number outside `int` throws
      `std::out_of_range`. Characters after the digits are ignored. */
  function Stoi(s: string): IntResult {
    ParseSigned(s[PrefixWhile(s, IsSpace)..])
  }

  /** `std::stoi` once the white space is skipped. */
  function ParseSigned(rest: string): IntResult {
    var negative := rest != [] && rest[0] == '-';
    var unsigned := if rest != [] && (rest[0] == '-' || rest[0] == '+') then rest[1..] else rest;
    match ParseUnsigned(unsigned)
    case None => InvalidArgument
    case Some(magnitude) =>
      var v: int := if negative then -(magnitude as int) else magnitude;
      if Int32Min <= v <= Int32Max then Int(v) else OutOfRange
  }

  /** The number the leading digits spell; None when there is none. */
  function ParseUnsigned(unsigned: string): Option<nat> {
    var n := PrefixWhile(unsigned, IsDigit);
    if n == 0 then None else Some(DigitsValue(unsigned[..n]))
  }

  /** The decimal digits of `n`, most significant first. */
  function Decimal(n: nat): (r: string)
    ensures r != [] && forall k :: 0 <= k < |r| ==> IsDigit(r[k])
  {
    var digit := ['0' + (n % 10) as char];
    if n < 10 then digit else Decimal(n / 10) + digit
  }

  /** `std::to_string` on an `int`. */
  function Show(x: int): string {
    if x < 0 then "-" + Decimal(-x) else Decimal(x)
  }

  lemma {:induction false} DecimalValue(n: nat)
    ensures DigitsValue(Decimal(n)) == n
  {
    var d := Decimal(n);
    if n >= 10 {
      DecimalValue(n / 10);
      assert d[..|d| - 1] == Decimal(n / 10);
    }
  }

  /** White space before a non-space character is skipped. */
  lemma SkipSpace(space: string, rest: string)
    requires forall k :: 0 <= k < |space| ==> IsSpace(space[k])
    requires rest != [] && !IsSpace(rest[0])
    ensures (space + rest)[PrefixWhile(space + rest, IsSpace)..] == rest
  {
    PrefixExact(space + rest, IsSpace, |space|);
    assert (space + rest)[|space|..] == rest;
  }

  /** The digits read are exactly those before the first non-digit. */
  lemma ReadDigits(digits: string, tail: string)
    requires forall k :: 0 <= k < |digits| ==> IsDigit(digits[k])
    requires tail == [] || !IsDigit(tail[0])
    ensures PrefixWhile(digits + tail, IsDigit) == |digits| && (digits + tail)[..|digits|] == digits
  {
    PrefixExact(digits + tail, IsDigit, |digits|);
  }

  /** The digits of `n` before a non-digit read as `n`. */
  lemma ReadNumber(n: nat, tail: string)
    requires tail == [] || !IsDigit(tail[0])
    ensures ParseUnsigned(Decimal(n) + tail) == Some(n)
  {
    ReadDigits(Decimal(n), tail);
    DecimalValue(n);
  }

  /** A minus sign before digits negates them. */
  lemma ParseNegative(rest: string, magnitude: nat)
    requires rest != [] && rest[0] == '-' && ParseUnsigned(rest[1..]) == Some(magnitude)
    requires magnitude <= -Int32Min
    ensures ParseSigned(rest) == Int(-(magnitude as int))
  {
  }

  /** Digits without a sign are read as they are. */
  lemma ParsePlain(rest: string, magnitude: nat)
    requires rest != [] && IsDigit(rest[0]) && ParseUnsigned(rest) == Some(magnitude)
    requires magnitude <= Int32Max
    ensures ParseSigned(rest) == Int(magnitude)
  {
  }

  /** A negative number is written as a minus sign and its magnitude. */
  lemma ShowNegative(x: int, tail: string)
    requires x < 0
    ensures Show(x) + tail != [] && (Show(x) + tail)[0] == '-'
    ensures (Show(x) + tail)[1..] == Decimal(-x) + tail
  {
    assert Show(x) + tail == ['-'] + (Decimal(-x) + tail);
  }

  /** A number written by `std::to_string` is read back, whatever
      non-digit follows it. */
  lemma ParseShow(x: int, tail: string)
    requires Int32Min <= x <= Int32Max
    requires tail == [] || !IsDigit(tail[0])
    ensures ParseSigned(Show(x) + tail) == Int(x)
  {
    var rest := Show(x) + tail;
    if x < 0 {
      ShowNegative(x, tail);
      ReadNumber(-x, tail);
      ParseNegative(rest, -x);
    } else {
      assert rest == Decimal(x) + tail;
      ReadNumber(x, tail);
      ParsePlain(rest, x);
    }
  }

  /** `std::stoi` reads back what `std::to_string` writes, whatever white
      space precedes it and whatever non-digit follows it. */
  lemma StoiShow(space: string, x: int, tail: string)
    requires Int32Min <= x <= Int32Max
    requires forall k :: 0 <= k < |space| ==> IsSpace(space[k])
    requires tail == [] || !IsDigit(tail[0])
    ensures Stoi(space + Show(x) + tail) == Int(x)
  {
    var rest := Show(x) + tail;
    assert rest[0] == '-' || IsDigit(rest[0]);
    SkipSpace(space, rest);
    assert space + Show(x) + tail == space + rest;
    ParseShow(x, tail);
  }

  /** Where the scan goes on from: the position found, or the end of the
      string for `npos`. */
  function Resume(args: string, position: Option<nat>): nat {
    if position.Some? && position.value <= |args| then position.value else |args|
  }

  /** The state of the constructor's scan: `lastPos` is the start of the
      next token and `pos` the delimiter after it, or both are `npos`. */
  ghost predicate Scanning(args: string, lastPos: Option<nat>, pos: Option<nat>) {
    match lastPos
    case None => pos.None?
    case Some(start) => start < |args| && args[start] !in Delimiters && pos == FindFirstOf(args, Delimiters, start)
  }

  /** One turn of the constructor's loop: the token from `start` up to the
      delimiter at `pos` (or the end) is the next one, and the scan goes
      on from the first non-delimiter after it. */
  lemma ScanStep(args: string, seen: seq<string>, start: nat, pos: Option<nat>, end: nat,
                 lastPos': Option<nat>, pos': Option<nat>)
    requires Scanning(args, Some(start), pos)
    requires Tokens(args) == seen + Tokens(args[start..])
    requires end == if pos.Some? then pos.value else |args|
    requires lastPos' == if pos.Some? then FindFirstNotOf(args, Delimiters, pos.value) else None
    requires pos' == if lastPos'.Some? then FindFirstOf(args, Delimiters, lastPos'.value) else None
    ensures start < end <= |args| && Resume(args, lastPos') > start
    ensures Scanning(args, lastPos', pos')
    ensures Tokens(args) == (seen + [args[start..end]]) + Tokens(args[Resume(args, lastPos')..])
  {
    TokenAt(args, start, end);
    SkipDelimiters(args, end, Resume(args, lastPos'));
    Shift(seen, Tokens(args[start..]), args[start..end], Tokens(args[Resume(args, lastPos')..]));
  }

  /** Moving the next token from what is left to what is seen. */
  lemma Shift(seen: seq<string>, rest: seq<string>, token: string, after: seq<string>)
    requires rest == [token] + after
    ensures seen + rest == (seen + [token]) + after
  {
  }

  /** Inserting one more token extends the map as `Insert` does. */
  lemma BuildAppend(tokens: seq<string>, token: string)
    ensures Build(tokens + [token]) == Insert(Build(tokens), token)
  {
    assert (tokens + [token])[..|tokens|] == tokens;
  }

  class Arguments {
    /** `m_map`. */
    var entries: map<string, string>
    /** The tokens of the option string, in order. */
    ghost var tokens: seq<string>

    ghost predicate Valid()
      reads this
    {
      entries == Build(tokens)
    }

    /** The constructor walks the string from token to token: the next
        token starts at the first non-delimiter and ends before the first
        delimiter after it (or at the end of the string). Each is split
        at its first `=` and inserted into the map. */
    constructor (args: string)
      ensures Valid() && tokens == Tokens(args)
    {
      var parsed: map<string, string> := map[];
      ghost var seen: seq<string> := [];
      var lastPos := FindFirstNotOf(args, Delimiters, 0);
      // Searching from `npos` finds `npos`.
      var pos := if lastPos.Some? then FindFirstOf(args, Delimiters, lastPos.value) else None;
      SkipDelimiters(args, 0, Resume(args, lastPos));
      assert args[0..] == args;
      while pos.Some? || lastPos.Some?
        invariant Scanning(args, lastPos, pos)
        invariant Tokens(args) == seen + Tokens(args[Resume(args, lastPos)..])
        invariant parsed == Build(seen)
        decreases |args| - Resume(args, lastPos)
      {
        var start := lastPos.value;
        var end := if pos.Some? then pos.value else |args|;
        var token := args[start..end];
        var (arg, value) := Split(token);
        if arg !in parsed {
          parsed := parsed[arg := value];
        }
        BuildAppend(seen, token);
        var lastPos' := if pos.Some? then FindFirstNotOf(args, Delimiters, pos.value) else None;
        var pos' := if lastPos'.Some? then FindFirstOf(args, Delimiters, lastPos'.value) else None;
        ScanStep(args, seen, start, pos, end, lastPos', pos');
        seen := seen + [token];
        lastPos, pos := lastPos', pos';
      }
      assert args[|args|..] == [];
      entries := parsed;
      tokens := seen;
    }

    /** Has: some token carries this name. */
    function Has(arg: string): (r: bool)
      reads this
      requires Valid()
      ensures r <==> exists i :: 0 <= i < |tokens| && Split(tokens[i]).0 == arg
    {
      FirstWins(tokens, arg);
      arg in entries
    }

    /** HasValue: the first token with this name gives it a non-empty
        value. */
    function HasValue(arg: string): (r: bool)
      reads this
      requires Valid()
      ensures r <==> FirstNamed(tokens, arg).Some? && Split(tokens[FirstNamed(tokens, arg).value]).1 != []
    {
      FirstWins(tokens, arg);
      arg in entries && entries[arg] != []
    }

    /** GetStringValue asserts the name is present and gives the value of
        the first token with it. */
    function GetStringValue(arg: string): (r: string)
      reads this
      requires Valid() && arg in entries
      ensures FirstNamed(tokens, arg).Some? && r == Split(tokens[FirstNamed(tokens, arg).value]).1
    {
      FirstWins(tokens, arg);
      entries[arg]
    }

    /** GetIntValue: that value through `std::stoi`, whose exceptions are
        results here. */
    function GetIntValue(arg: string): (r: IntResult)
      reads this
      requires Valid() && arg in entries
      ensures FirstNamed(tokens, arg).Some? && r == Stoi(Split(tokens[FirstNamed(tokens, arg).value]).1)
    {
      FirstWins(tokens, arg);
      Stoi(entries[arg])
    }
  }
}
