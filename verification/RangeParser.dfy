/** Parsing of index lists such as "0-3,7" (pkg/exporter/parserutil/options.go). */
module RangeParser {
  import opened Wrappers
  import Sequences

  const MAX_INT: int := 0x7fff_ffff_ffff_ffff
  const MIN_INT: int := -0x8000_0000_0000_0000

  // ------------------------------------------------------------- strings.Split

  function Split(s: string, sep: char): (tokens: seq<string>)
    ensures |tokens| >= 1
  {
    if s == [] then [[]]
    else
      var rest := Split(s[1..], sep);
      if s[0] == sep then [[]] + rest else [[s[0]] + rest[0]] + rest[1..]
  }

  function Join(tokens: seq<string>, sep: char): string
    requires |tokens| >= 1
  {
    if |tokens| == 1 then tokens[0] else tokens[0] + [sep] + Join(tokens[1..], sep)
  }

  ghost predicate Free(tokens: seq<string>, sep: char) {
    forall i :: 0 <= i < |tokens| ==> sep !in tokens[i]
  }

  lemma {:induction false} SplitPart(token: string, rest: string, sep: char)
    requires sep !in token
    ensures Split(token, sep) == [token]
    ensures Split(token + [sep] + rest, sep) == [token] + Split(rest, sep)
  {
    var s := token + [sep] + rest;
    if token == [] {
      assert s[1..] == rest;
    } else {
      SplitPart(token[1..], rest, sep);
      assert s[1..] == token[1..] + [sep] + rest;
      assert token == [token[0]] + token[1..];
    }
  }

  /** Split undoes Join when the separator occurs in no token. */
  lemma {:induction false} SplitJoin(tokens: seq<string>, sep: char)
    requires |tokens| >= 1 && Free(tokens, sep)
    ensures Split(Join(tokens, sep), sep) == tokens
  {
    if |tokens| == 1 {
      SplitPart(tokens[0], [], sep);
    } else {
      SplitJoin(tokens[1..], sep);
      SplitPart(tokens[0], Join(tokens[1..], sep), sep);
    }
  }

  lemma {:induction false} SplitIsFree(s: string, sep: char)
    ensures Free(Split(s, sep), sep)
  {
    if s != [] {
      SplitIsFree(s[1..], sep);
    }
  }

  // ------------------------------------------------------------- strconv.Atoi

  predicate AllDigits(s: string) {
    forall i :: 0 <= i < |s| ==> '0' <= s[i] <= '9'
  }

  function DigitsValue(s: string): nat
    requires AllDigits(s)
  {
    if s == [] then 0 else 10 * DigitsValue(s[..|s| - 1]) + (s[|s| - 1] - '0') as nat
  }

  /** A decimal number with an optional sign, within the 64-bit range. */
  function Atoi(s: string): Option<int> {
    var signed := s != [] && (s[0] == '+' || s[0] == '-');
    var digits := if signed then s[1..] else s;
    if digits == [] || !AllDigits(digits) then None
    else
      var value: int := if signed && s[0] == '-' then 0 - DigitsValue(digits) as int else DigitsValue(digits);
      if MIN_INT <= value <= MAX_INT then Some(value) else None
  }

  function Itoa(n: nat): (s: string)
    ensures s != [] && AllDigits(s)
  {
    var digit := '0' + (n % 10) as char;
    if n < 10 then [digit] else Itoa(n / 10) + [digit]
  }

  lemma {:induction false} ItoaValue(n: nat)
    ensures DigitsValue(Itoa(n)) == n
  {
    var digit := '0' + (n % 10) as char;
    if n >= 10 {
      ItoaValue(n / 10);
      assert Itoa(n)[..|Itoa(n)| - 1] == Itoa(n / 10);
    } else {
      assert [digit][..0] == [];
    }
  }

  lemma AtoiItoa(n: nat)
    requires n <= MAX_INT
    ensures Atoi(Itoa(n)) == Some(n) && '-' !in Itoa(n) && ',' !in Itoa(n)
  {
    ItoaValue(n);
  }

  /** The accepted number texts: digits with an optional sign, a plus changing nothing and a minus
      the sign, within the 64-bit range. */
  lemma AtoiMeans(s: string)
    ensures s != [] && AllDigits(s) ==>
              && Atoi(s) == (if DigitsValue(s) <= MAX_INT then Some(DigitsValue(s)) else None)
              && Atoi(['+'] + s) == Atoi(s)
              && Atoi(['-'] + s) == (if DigitsValue(s) <= MAX_INT + 1 then Some(0 - DigitsValue(s) as int) else None)
    ensures Atoi(s).Some? ==>
              && s != []
              && (AllDigits(s) || (|s| > 1 && (s[0] == '+' || s[0] == '-') && AllDigits(s[1..])))
  {
    assert (['+'] + s)[1..] == s && (['-'] + s)[1..] == s;
  }

  lemma AtoiWithoutMinus(s: string)
    requires '-' !in s
    ensures Atoi(s).Some? ==> 0 <= Atoi(s).value <= MAX_INT
  {
  }

  // ------------------------------------------------------------- the range loop

  /** Go's int increment. */
  function Increment(i: int): int {
    if i == MAX_INT then MIN_INT else i + 1
  }

  function Counted(start: int, steps: nat): int {
    if steps == 0 then start else Increment(Counted(start, steps - 1))
  }

  lemma {:induction false} CountedStaysLow(start: int, steps: nat)
    requires MIN_INT <= start <= MAX_INT
    ensures MIN_INT <= Counted(start, steps) <= MAX_INT
    ensures start + steps <= MAX_INT ==> Counted(start, steps) == start + steps
  {
    if steps > 0 {
      CountedStaysLow(start, steps - 1);
    }
  }

  /** The counting loop from start to end leaves its guard exactly when end is below the
      largest int; otherwise the increment wraps around and the loop never ends. */
  lemma RangeLoopEndsIff(start: int, end: int)
    requires MIN_INT <= start <= end <= MAX_INT
    ensures (exists steps: nat :: Counted(start, steps) > end) <==> end < MAX_INT
  {
    if end < MAX_INT {
      CountedStaysLow(start, end - start + 1);
      assert Counted(start, end - start + 1) > end;
    } else {
      forall steps: nat ensures Counted(start, steps) <= end {
        CountedStaysLow(start, steps);
      }
    }
  }

  // ------------------------------------------------------------- the parser

  /** The error result keeps the indices appended before the error; Diverges stands for a
      call that does not return. */
  datatype Outcome = Parsed(indices: seq<int>) | Failed(partial: seq<int>) | Diverges

  function Span(lo: int, hi: int): seq<int>
    requires lo <= hi + 1
  {
    seq(hi + 1 - lo, i requires 0 <= i => lo + i)
  }

  /** A span holds exactly the numbers from its start to its end, in increasing order. */
  lemma SpanHolds(lo: int, hi: int, x: int)
    requires lo <= hi + 1
    ensures x in Span(lo, hi) <==> lo <= x <= hi
    ensures forall i, j :: 0 <= i < j < |Span(lo, hi)| ==> Span(lo, hi)[i] < Span(lo, hi)[j]
  {
    if lo <= x <= hi {
      assert Span(lo, hi)[x - lo] == x;
    }
  }

  lemma SpanStep(indices: seq<int>, lo: int, i: int)
    requires lo <= i
    ensures (indices + Span(lo, i - 1)) + [i] == indices + Span(lo, i)
  {
    assert Span(lo, i) == Span(lo, i - 1) + [i];
  }

  /** The meaning of one comma-separated part. */
  function ParsePart(part: string): Outcome {
    var token := Split(part, '-');
    if |token| > 2 then Failed([])
    else if |token| == 1 then
      match Atoi(token[0])
      case None => Failed([])
      case Some(number) => Parsed([number])
    else
      match (Atoi(token[0]), Atoi(token[1]))
      case (Some(start), Some(end)) =>
        if start > end then Failed([])
        else if end == MAX_INT then Diverges
        else Parsed(Span(start, end))
      case _ => Failed([])
  }

  function ParseParts(indices: seq<int>, parts: seq<string>): Outcome
    decreases |parts|
  {
    if parts == [] then Parsed(indices)
    else
      match ParsePart(parts[0])
      case Parsed(more) => ParseParts(indices + more, parts[1..])
      case Failed(_) => Failed(indices)
      case Diverges => Diverges
  }

  function Parse(b: string): Outcome {
    ParseParts([], Split(b, ','))
  }

  /** Appends the indices of one part, or reports why the caller must stop. */
  method AppendPart(indices: seq<int>, part: string) returns (r: Outcome)
    ensures r == match ParsePart(part)
                 case Parsed(more) => Parsed(indices + more)
                 case Failed(_) => Failed(indices)
                 case Diverges => Diverges
  {
    var token := Split(part, '-');
    if |token| > 2 {
      return Failed(indices);
    } else if |token| == 1 {
      var number := Atoi(token[0]);
      if number == None {
        return Failed(indices);
      }
      return Parsed(indices + [number.value]);
    }
    var start := Atoi(token[0]);
    if start == None {
      return Failed(indices);
    }
    var end := Atoi(token[1]);
    if end == None || start.value > end.value {
      return Failed(indices);
    }
    if end.value == MAX_INT {
      return Diverges;  // see RangeLoopEndsIff
    }
    var longer, i := indices, start.value;
    while i <= end.value
      invariant start.value <= i <= end.value + 1
      invariant longer == indices + Span(start.value, i - 1)
    {
      SpanStep(indices, start.value, i);
      longer := longer + [i];
      i := i + 1;
    }
    return Parsed(longer);
  }

  method RangeStrToIntIndices(b: string) returns (r: Outcome)
    ensures r == Parse(b)
  {
    var parts := Split(b, ',');
    var indices: seq<int> := [];
    for k := 0 to |parts|
      invariant ParseParts(indices, parts[k..]) == Parse(b)
    {
      assert parts[k..][1..] == parts[k + 1..];
      var next := AppendPart(indices, parts[k]);
      if next.Parsed? {
        indices := next.indices;
      } else {
        return next;
      }
    }
    return Parsed(indices);
  }

  // ------------------------------------------------------------- only non-negative indices

  ghost predicate InRange(indices: seq<int>) {
    forall i :: 0 <= i < |indices| ==> 0 <= indices[i] <= MAX_INT
  }

  lemma PartInRange(part: string)
    ensures ParsePart(part).Parsed? ==> InRange(ParsePart(part).indices) && ParsePart(part).indices != []
  {
    var token := Split(part, '-');
    SplitIsFree(part, '-');
    forall i | 0 <= i < |token| ensures Atoi(token[i]).Some? ==> 0 <= Atoi(token[i]).value <= MAX_INT {
      AtoiWithoutMinus(token[i]);
    }
  }

  lemma {:induction false} PartsInRange(indices: seq<int>, parts: seq<string>)
    requires InRange(indices)
    ensures match ParseParts(indices, parts)
            case Parsed(all) => InRange(all) && |all| >= |indices| + |parts|
            case Failed(partial) => InRange(partial)
            case Diverges => true
    decreases |parts|
  {
    if parts != [] {
      PartInRange(parts[0]);
      match ParsePart(parts[0])
      case Parsed(more) => PartsInRange(indices + more, parts[1..]);
      case Failed(_) =>
      case Diverges =>
    }
  }

  /** Whatever the input, the indices are non-negative ints, and a successful parse yields at
      least one; a minus sign never reaches the number parser. */
  lemma ParseInRange(b: string)
    ensures match Parse(b)
            case Parsed(indices) => indices != [] && InRange(indices)
            case Failed(partial) => InRange(partial)
            case Diverges => true
  {
    PartsInRange([], Split(b, ','));
  }

  // ------------------------------------------------------------- the round trip

  datatype Item = Single(n: nat) | Range(lo: nat, hi: nat)

  predicate ValidItem(item: Item) {
    match item
    case Single(n) => n <= MAX_INT
    case Range(lo, hi) => lo <= hi <= MAX_INT
  }

  function PrintItem(item: Item): string {
    match item
    case Single(n) => Itoa(n)
    case Range(lo, hi) => Itoa(lo) + ['-'] + Itoa(hi)
  }

  function PrintItems(items: seq<Item>): seq<string> {
    seq(|items|, i requires 0 <= i < |items| => PrintItem(items[i]))
  }

  function Print(items: seq<Item>): string
    requires items != []
  {
    Join(PrintItems(items), ',')
  }

  predicate Endless(item: Item) {
    item.Range? && item.hi == MAX_INT
  }

  function ExpandItem(item: Item): seq<int>
    requires ValidItem(item)
  {
    match item
    case Single(n) => [n]
    case Range(lo, hi) => Span(lo, hi)
  }

  function Expand(items: seq<Item>): seq<int>
    requires forall i :: 0 <= i < |items| ==> ValidItem(items[i])
  {
    if items == [] then [] else ExpandItem(items[0]) + Expand(items[1..])
  }

  lemma SplitTwo(a: string, b: string, sep: char)
    requires sep !in a && sep !in b
    ensures Split(a + [sep] + b, sep) == [a, b]
  {
    SplitPart(a, b, sep);
    SplitPart(b, [], sep);
    assert [a] + [b] == [a, b];
  }

  lemma RangePart(a: string, b: string, lo: int, hi: int)
    requires '-' !in a && '-' !in b && Atoi(a) == Some(lo) && Atoi(b) == Some(hi) && lo <= hi
    ensures ParsePart(a + ['-'] + b) == if hi == MAX_INT then Diverges else Parsed(Span(lo, hi))
  {
    SplitTwo(a, b, '-');
  }

  lemma ItemRoundTrip(item: Item)
    requires ValidItem(item)
    ensures ParsePart(PrintItem(item)) == if Endless(item) then Diverges else Parsed(ExpandItem(item))
    ensures ',' !in PrintItem(item)
  {
    match item
    case Single(n) =>
      AtoiItoa(n);
      SplitPart(Itoa(n), [], '-');
    case Range(lo, hi) =>
      AtoiItoa(lo);
      AtoiItoa(hi);
      RangePart(Itoa(lo), Itoa(hi), lo, hi);
  }

  predicate AnyEndless(items: seq<Item>) {
    exists i :: 0 <= i < |items| && Endless(items[i])
  }

  lemma AnyEndlessStep(items: seq<Item>)
    requires items != []
    ensures AnyEndless(items) <==> Endless(items[0]) || AnyEndless(items[1..])
  {
    var rest := items[1..];
    if i :| 0 <= i < |items| && Endless(items[i]) && i > 0 {
      assert rest[i - 1] == items[i];
    }
    if i :| 0 <= i < |rest| && Endless(rest[i]) {
      assert items[i + 1] == rest[i];
    }
  }

  lemma PrintItemsTail(items: seq<Item>)
    requires items != []
    ensures PrintItems(items)[0] == PrintItem(items[0]) && PrintItems(items)[1..] == PrintItems(items[1..])
  {
  }

  lemma {:induction false} ItemsRoundTrip(indices: seq<int>, items: seq<Item>)
    requires forall i :: 0 <= i < |items| ==> ValidItem(items[i])
    ensures ParseParts(indices, PrintItems(items)) ==
            if AnyEndless(items) then Diverges else Parsed(indices + Expand(items))
    decreases |items|
  {
    if items == [] {
      assert indices + [] == indices;
    } else {
      var rest := items[1..];
      ItemRoundTrip(items[0]);
      AnyEndlessStep(items);
      PrintItemsTail(items);
      if !Endless(items[0]) {
        ItemsRoundTrip(indices + ExpandItem(items[0]), rest);
        Sequences.Regroup(indices, ExpandItem(items[0]), Expand(rest));
      }
    }
  }

  /** Parsing a printed list of indices and ranges gives the concatenated expansions, in
      order, exactly when no range ends at the largest int. */
  lemma RoundTrip(items: seq<Item>)
    requires items != [] && forall i :: 0 <= i < |items| ==> ValidItem(items[i])
    ensures Parse(Print(items)) == if AnyEndless(items) then Diverges else Parsed(Expand(items))
  {
    var tokens := PrintItems(items);
    forall i | 0 <= i < |tokens| ensures ',' !in tokens[i] {
      ItemRoundTrip(items[i]);
    }
    SplitJoin(tokens, ',');
    ItemsRoundTrip([], items);
    assert [] + Expand(items) == Expand(items);
  }

  // ------------------------------------------------------------- the accepted strings

  lemma {:induction false} JoinSplit(s: string, sep: char)
    ensures Join(Split(s, sep), sep) == s
  {
    if s != [] {
      var rest := Split(s[1..], sep);
      JoinSplit(s[1..], sep);
      if s[0] == sep {
        assert ([[]] + rest)[1..] == rest;
      } else if |rest| > 1 {
        assert ([[s[0]] + rest[0]] + rest[1..])[1..] == rest[1..];
      }
    }
  }

  /** A decimal number without a minus sign that fits an int. */
  predicate IsNumber(s: string) {
    '-' !in s && Atoi(s).Some?
  }

  /** Two numbers joined by a minus sign, in order, the second below the largest int. */
  ghost predicate IsRange(part: string) {
    exists a, b :: part == a + ['-'] + b && IsNumber(a) && IsNumber(b) && Atoi(a).value <= Atoi(b).value < MAX_INT
  }

  ghost predicate Accepted(part: string) {
    IsNumber(part) || IsRange(part)
  }

  lemma PartAcceptedIff(part: string)
    ensures ParsePart(part).Parsed? <==> Accepted(part)
  {
    var token := Split(part, '-');
    SplitIsFree(part, '-');
    JoinSplit(part, '-');
    if IsNumber(part) {
      SplitPart(part, [], '-');
    }
    forall a, b | part == a + ['-'] + b && IsNumber(a) && IsNumber(b) && Atoi(a).value <= Atoi(b).value < MAX_INT
      ensures ParsePart(part).Parsed?
    {
      RangePart(a, b, Atoi(a).value, Atoi(b).value);
    }
    if ParsePart(part).Parsed? && |token| == 2 {
      assert part == token[0] + ['-'] + token[1];
    }
  }

  lemma AcceptedHasNoComma(part: string)
    requires Accepted(part)
    ensures ',' !in part
  {
  }

  ghost predicate AllAccepted(parts: seq<string>) {
    forall i :: 0 <= i < |parts| ==> Accepted(parts[i])
  }

  function Meaning(parts: seq<string>): seq<int> {
    if parts == [] then []
    else (match ParsePart(parts[0]) case Parsed(more) => more case _ => []) + Meaning(parts[1..])
  }

  lemma {:induction false} AcceptedParts(indices: seq<int>, parts: seq<string>, rest: seq<string>)
    requires AllAccepted(parts)
    ensures ParseParts(indices, parts + rest) == ParseParts(indices + Meaning(parts), rest)
    decreases |parts|
  {
    if parts == [] {
      assert parts + rest == rest && indices + [] == indices;
    } else {
      PartAcceptedIff(parts[0]);
      var more := ParsePart(parts[0]).indices;
      assert (parts + rest)[1..] == parts[1..] + rest;
      AcceptedParts(indices + more, parts[1..], rest);
      Sequences.Regroup(indices, more, Meaning(parts[1..]));
    }
  }

  /** The parse of any string is decided by its first part that is neither a number nor a
      range: without one it succeeds with the indices of all parts, else it fails with the
      indices of the parts before it, or does not return if that part is a range to the
      largest int. */
  lemma FirstBadPartDecides(b: string, k: nat)
    requires var parts := Split(b, ',');
             k <= |parts| && AllAccepted(parts[..k]) && (k < |parts| ==> !Accepted(parts[k]))
    ensures var parts := Split(b, ',');
            Parse(b) == if k == |parts| then Parsed(Meaning(parts))
                        else if ParsePart(parts[k]).Diverges? then Diverges
                        else Failed(Meaning(parts[..k]))
  {
    var parts := Split(b, ',');
    assert parts == parts[..k] + parts[k..];
    AcceptedParts([], parts[..k], parts[k..]);
    assert [] + Meaning(parts[..k]) == Meaning(parts[..k]);
    if k < |parts| {
      PartAcceptedIff(parts[k]);
    } else {
      assert parts[..k] == parts;
    }
  }

  lemma FirstBadPart(parts: seq<string>) returns (k: nat)
    ensures k <= |parts| && AllAccepted(parts[..k]) && (k < |parts| ==> !Accepted(parts[k]))
  {
    k := 0;
    while k < |parts| && Accepted(parts[k])
      invariant k <= |parts| && AllAccepted(parts[..k])
    {
      k := k + 1;
    }
  }

  /** The accepted strings are exactly the non-empty comma-joined lists of numbers and
      increasing ranges. */
  lemma AcceptedIff(b: string)
    ensures Parse(b).Parsed? <==> exists parts :: |parts| >= 1 && AllAccepted(parts) && b == Join(parts, ',')
  {
    var k := FirstBadPart(Split(b, ','));
    FirstBadPartDecides(b, k);
    assert Split(b, ',')[..|Split(b, ',')|] == Split(b, ',');
    JoinSplit(b, ',');
    forall parts | |parts| >= 1 && AllAccepted(parts) && b == Join(parts, ',') ensures Split(b, ',') == parts {
      forall i | 0 <= i < |parts| ensures ',' !in parts[i] {
        AcceptedHasNoComma(parts[i]);
      }
      SplitJoin(parts, ',');
    }
  }
}
