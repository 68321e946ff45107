/**
 * Employee codes: the migration that renumbers a company in two phases under a unique constraint, and
 * the counter that later creations ratchet. Codes are strings; numbers are printed in decimal with at
 * least four digits. Only ASCII digits are digits here.
 */
module EmployeeCodes {
  import opened Options

  type Code = string

  // ---- Decimal numbers ------------------------------------------------------------------------

  predicate IsDigit(c: char) { '0' <= c <= '9' }

  function DigitValue(c: char): (d: nat)
    requires IsDigit(c)
    ensures d < 10
  {
    c as int - '0' as int
  }

  function DigitChar(d: nat): (c: char)
    requires d < 10
    ensures IsDigit(c) && DigitValue(c) == d
  {
    ('0' as int + d) as char
  }

  predicate AllDigits(s: string) { forall i :: 0 <= i < |s| ==> IsDigit(s[i]) }

  /** `str(n)`. */
  function Print(n: nat): (s: string)
    ensures |s| > 0 && AllDigits(s)
  {
    if n < 10 then [DigitChar(n)] else Print(n / 10) + [DigitChar(n % 10)]
  }

  /** `f"{n:04d}"`. */
  function Print4(n: nat): (s: string)
    ensures |s| >= 4 && AllDigits(s)
  {
    Padded(Print(n))
  }

  function Padded(s: string): (r: string)
    requires AllDigits(s)
    ensures |r| >= 4 && AllDigits(r)
    decreases 4 - |s|
  {
    if |s| >= 4 then s else Padded("0" + s)
  }

  /** `int(s)` of a string of digits. */
  function Parse(s: string): nat
    requires AllDigits(s)
  {
    if s == "" then 0 else 10 * Parse(s[..|s| - 1]) + DigitValue(s[|s| - 1])
  }

  lemma {:induction false} ParsePrint(n: nat)
    ensures Parse(Print(n)) == n
  {
    if n >= 10 {
      ParsePrint(n / 10);
      assert Print(n)[..|Print(n)| - 1] == Print(n / 10);
    } else {
      assert Print(n)[..0] == "";
    }
  }

  lemma {:induction false} LeadingZero(s: string)
    requires AllDigits(s)
    ensures AllDigits("0" + s) && Parse("0" + s) == Parse(s)
  {
    if s == "" {
      assert ("0" + s)[..0] == "";
    } else {
      LeadingZero(s[..|s| - 1]);
      assert ("0" + s)[..|s|] == "0" + s[..|s| - 1];
    }
  }

  lemma {:induction false} ParsePadded(s: string)
    requires AllDigits(s)
    ensures Parse(Padded(s)) == Parse(s)
    decreases 4 - |s|
  {
    if |s| < 4 {
      LeadingZero(s);
      ParsePadded("0" + s);
    }
  }

  /** Printing then parsing gives the number back, whatever its width. */
  lemma ParseAfterPrint(n: nat)
    ensures Parse(Print4(n)) == n
  {
    ParsePrint(n);
    ParsePadded(Print(n));
  }

  // ---- Codes ----------------------------------------------------------------------------------

  function CodeOf(prefix: string, n: nat): Code { prefix + "-" + Print4(n) }

  /** `re.match(rf"^{prefix}-(\d+)$", code)`: the number behind the prefix, if the code is one of ours. */
  function SuffixOf(prefix: string, code: Code): Option<nat> {
    if |code| > |prefix| + 1 && code[..|prefix|] == prefix && code[|prefix|] == '-' && AllDigits(code[|prefix| + 1..])
    then Some(Parse(code[|prefix| + 1..]))
    else None
  }

  lemma SuffixOfCode(prefix: string, n: nat)
    ensures SuffixOf(prefix, CodeOf(prefix, n)) == Some(n)
  {
    var code := CodeOf(prefix, n);
    assert code[..|prefix|] == prefix && code[|prefix| + 1..] == Print4(n);
    ParseAfterPrint(n);
  }

  function SlugPrefix(slug: string): (p: string)
    ensures 0 < |p| <= 16
  {
    if slug == "" then "emp"
    else
      var first := Segment(slug);
      var chosen := if first == "" then slug else first;
      if |chosen| <= 16 then chosen else chosen[..16]
  }

  /** The part of the slug before its first dash. */
  function Segment(slug: string): string {
    if slug == "" || slug[0] == '-' then "" else [slug[0]] + Segment(slug[1..])
  }

  // ---- The migration --------------------------------------------------------------------------

  const TEMP := "__migrating_"

  /** `__migrating_{company_id}_{idx}`. */
  function TempCode(company: string, idx: nat): Code { TEMP + company + "_" + Print(idx) }

  /** A UUID prints eight characters before its first dash. */
  predicate LooksLikeUuid(company: string) {
    |company| == 36 && forall i :: 0 <= i < 8 ==> company[i] != '-'
  }

  ghost predicate Unique(codes: seq<Code>) {
    forall i, j :: 0 <= i < j < |codes| ==> codes[i] != codes[j]
  }

  /** Codes after `k` updates of the first phase. */
  function AfterTemp(codes: seq<Code>, company: string, k: nat): (r: seq<Code>)
    requires k <= |codes|
    ensures |r| == |codes|
  {
    seq(|codes|, i requires 0 <= i < |codes| => if i < k then TempCode(company, i + 1) else codes[i])
  }

  /** Codes after `k` updates of the second phase. */
  function AfterFinal(n: nat, company: string, prefix: string, k: nat): (r: seq<Code>)
    requires k <= n
    ensures |r| == n
  {
    seq(n, i requires 0 <= i < n => if i < k then CodeOf(prefix, i + 1) else TempCode(company, i + 1))
  }

  function FinalCodes(n: nat, prefix: string): seq<Code> {
    seq(n, i requires 0 <= i < n => CodeOf(prefix, i + 1))
  }

  /** Employee `j` already carries the code employee `i` is to get in the first phase. */
  predicate HoldsTemp(codes: seq<Code>, company: string, i: int, j: int) {
    0 <= i && 0 <= j < |codes| && codes[j] == TempCode(company, i + 1)
  }

  /** No employee already carries the temporary code of an earlier one. */
  ghost predicate NoTempClash(codes: seq<Code>, company: string) {
    forall i, j :: 0 <= i < j < |codes| ==> !HoldsTemp(codes, company, i, j)
  }

  lemma TempCodesDiffer(company: string, a: nat, b: nat)
    requires a != b
    ensures TempCode(company, a) != TempCode(company, b)
  {
    var head := TEMP + company + "_";
    ParsePrint(a);
    ParsePrint(b);
    assert Print(a) != Print(b);
    assert TempCode(company, a)[|head|..] == Print(a);
    assert TempCode(company, b)[|head|..] == Print(b);
  }

  lemma FinalCodesDiffer(prefix: string, a: nat, b: nat)
    requires a != b
    ensures CodeOf(prefix, a) != CodeOf(prefix, b)
  {
    SuffixOfCode(prefix, a);
    SuffixOfCode(prefix, b);
  }

  /** A prefix of at most 16 characters puts its dash where a temporary code has none. */
  lemma FinalIsNeverTemp(prefix: string, company: string, a: nat, b: nat)
    requires |prefix| <= 16 && LooksLikeUuid(company)
    ensures CodeOf(prefix, a) != TempCode(company, b)
  {
    var at := |prefix|;
    assert CodeOf(prefix, a)[at] == '-';
    assert TempCode(company, b)[at] == if at < 12 then TEMP[at] else company[at - 12];
  }

  lemma TempStepUnique(codes: seq<Code>, company: string, k: nat)
    requires k < |codes| && Unique(AfterTemp(codes, company, k))
    ensures AfterTemp(codes, company, k + 1) == AfterTemp(codes, company, k)[k := TempCode(company, k + 1)]
    ensures Unique(AfterTemp(codes, company, k + 1)) <==>
              forall j :: k < j < |codes| ==> !HoldsTemp(codes, company, k, j)
  {
    var before, code := AfterTemp(codes, company, k), TempCode(company, k + 1);
    assert AfterTemp(codes, company, k + 1) == before[k := code];
    OneChangeUnique(before, k, code);
    forall i | 0 <= i < k ensures before[i] != code { TempCodesDiffer(company, i + 1, k + 1); }
    hide TempCode;
    assert forall j :: k < j < |codes| ==> (HoldsTemp(codes, company, k, j) <==> before[j] == code);
  }

  lemma FinalStepUnique(n: nat, company: string, prefix: string, k: nat)
    requires k <= n && |prefix| <= 16 && LooksLikeUuid(company)
    ensures Unique(AfterFinal(n, company, prefix, k))
  {
    hide CodeOf, TempCode;
    var r := AfterFinal(n, company, prefix, k);
    forall i, j | 0 <= i < j < n ensures r[i] != r[j] {
      if j < k { FinalCodesDiffer(prefix, i + 1, j + 1); }
      else if i < k { FinalIsNeverTemp(prefix, company, i + 1, j + 1); }
      else { TempCodesDiffer(company, i + 1, j + 1); }
    }
  }

  /** Every one of the first-phase updates keeps codes unique exactly when no temporary code is taken. */
  lemma {:induction false} TempPhaseUnique(codes: seq<Code>, company: string, k: nat)
    requires Unique(codes) && k <= |codes|
    ensures (forall m :: 0 <= m <= k ==> Unique(AfterTemp(codes, company, m)))
            <==> forall i, j :: 0 <= i < j < |codes| && i < k ==> !HoldsTemp(codes, company, i, j)
  {
    if k == 0 {
      assert AfterTemp(codes, company, 0) == codes;
    } else {
      TempPhaseUnique(codes, company, k - 1);
      if Unique(AfterTemp(codes, company, k - 1)) {
        TempStepUnique(codes, company, k - 1);
      }
    }
  }

  class Company {
    var codes: seq<Code>              // of the employees, oldest first
    var prefix: Option<string>
    var nextEmployeeSeq: int

    /** One UPDATE under the unique constraint; a violation leaves the table alone. */
    method UpdateCode(i: nat, code: Code) returns (ok: bool)
      requires i < |codes| && Unique(codes)
      modifies this`codes
      ensures ok <==> Unique(old(codes)[i := code])
      ensures codes == if ok then old(codes)[i := code] else old(codes)
    {
      ok := true;
      for j := 0 to |codes|
        invariant codes == old(codes)
        invariant ok <==> forall k :: 0 <= k < j && k != i ==> codes[k] != code
      {
        if j != i && codes[j] == code {
          ok := false;
        }
      }
      OneChangeUnique(codes, i, code);
      if ok {
        codes := codes[i := code];
      }
    }

    /**
     * The renumbering of one company. A violated constraint rolls the migration back, which happens
     * exactly when some employee already carries the temporary code of an earlier one.
     */
    method Upgrade(company: string, slug: string) returns (ok: bool)
      requires Unique(codes) && LooksLikeUuid(company)
      modifies this
      ensures ok <==> NoTempClash(old(codes), company)
      ensures !ok ==> codes == old(codes) && prefix == old(prefix) && nextEmployeeSeq == old(nextEmployeeSeq)
      ensures ok ==> prefix == Some(SlugPrefix(slug))
                     && codes == FinalCodes(old(|codes|), SlugPrefix(slug)) && Unique(codes)
                     && nextEmployeeSeq == |codes| + 1
    {
      var employees, p := codes, SlugPrefix(slug);
      assert AfterTemp(employees, company, 0) == employees;
      for idx := 0 to |employees|
        invariant codes == AfterTemp(employees, company, idx) && Unique(codes)
        invariant prefix == old(prefix) && nextEmployeeSeq == old(nextEmployeeSeq)
        invariant forall i, j :: 0 <= i < idx && i < j < |employees| ==> !HoldsTemp(employees, company, i, j)
      {
        TempStepUnique(employees, company, idx);
        var done := UpdateCode(idx, TempCode(company, idx + 1));
        if !done {
          codes := employees;
          return false;
        }
      }
      assert AfterTemp(employees, company, |employees|) == AfterFinal(|employees|, company, p, 0);
      for idx := 0 to |employees|
        invariant codes == AfterFinal(|employees|, company, p, idx) && Unique(codes)
      {
        FinalStepUnique(|employees|, company, p, idx + 1);
        assert codes[idx := CodeOf(p, idx + 1)] == AfterFinal(|employees|, company, p, idx + 1);
        var done := UpdateCode(idx, CodeOf(p, idx + 1));
        assert done;
      }
      assert codes == FinalCodes(|employees|, p);
      prefix, nextEmployeeSeq := Some(p), |employees| + 1;
      ok := true;
    }

    /** `create_employee`, as far as codes go; `effectivePrefix` is the company's fixed prefix. */
    method CreateEmployee(code: Code, effectivePrefix: string) returns (ok: bool)
      modifies this
      ensures ok <==> code !in old(codes)
      ensures codes == if ok then old(codes) + [code] else old(codes)
      ensures nextEmployeeSeq == if ok then Ratchet(old(nextEmployeeSeq), effectivePrefix, code) else old(nextEmployeeSeq)
      ensures prefix == old(prefix)
    {
      if code in codes {
        return false;
      }
      var suffix := SuffixOf(effectivePrefix, code);
      if suffix.Some? {
        if suffix.value + 1 > (if nextEmployeeSeq == 0 then 1 else nextEmployeeSeq) {
          nextEmployeeSeq := suffix.value + 1;
        }
      }
      codes := codes + [code];
      ok := true;
    }
  }

  lemma OneChangeUnique(codes: seq<Code>, i: nat, code: Code)
    requires i < |codes| && Unique(codes)
    ensures Unique(codes[i := code]) <==> forall k :: 0 <= k < |codes| && k != i ==> codes[k] != code
  {
    var r := codes[i := code];
    assert forall k :: 0 <= k < |codes| && k != i ==> r[k] == codes[k];
    if Unique(r) {
      forall k | 0 <= k < |codes| && k != i ensures codes[k] != code {
        assert if k < i then r[k] != r[i] else r[i] != r[k];
      }
    }
  }

  /** `int(next_employee_seq or 1)` reads a zero counter as 1. */
  function Ratchet(counter: int, prefix: string, code: Code): int {
    var suffix := SuffixOf(prefix, code);
    if suffix.Some? && suffix.value + 1 > (if counter == 0 then 1 else counter) then suffix.value + 1 else counter
  }

  // ---- Fresh codes ----------------------------------------------------------------------------

  datatype Roster = Roster(codes: seq<Code>, nextSeq: int)

  function Create(r: Roster, prefix: string, code: Code): Roster {
    if code in r.codes then r else Roster(r.codes + [code], Ratchet(r.nextSeq, prefix, code))
  }

  function CreateAll(r: Roster, prefix: string, codes: seq<Code>): Roster {
    var n := |codes|;
    if n == 0 then r else Create(CreateAll(r, prefix, codes[..n - 1]), prefix, codes[n - 1])
  }

  /** The counter is past every number in use behind the prefix. */
  ghost predicate CounterAhead(r: Roster, prefix: string) {
    1 <= r.nextSeq && forall i :: 0 <= i < |r.codes| ==>
      SuffixOf(prefix, r.codes[i]).Some? ==> SuffixOf(prefix, r.codes[i]).value < r.nextSeq
  }

  lemma MigrationLeavesCounterAhead(n: nat, prefix: string)
    ensures CounterAhead(Roster(FinalCodes(n, prefix), n + 1), prefix)
  {
    forall i | 0 <= i < n ensures SuffixOf(prefix, FinalCodes(n, prefix)[i]) == Some(i + 1) {
      SuffixOfCode(prefix, i + 1);
    }
  }

  lemma {:induction false} CreationsKeepCounterAhead(r: Roster, prefix: string, codes: seq<Code>)
    requires CounterAhead(r, prefix) && Unique(r.codes)
    ensures CounterAhead(CreateAll(r, prefix, codes), prefix) && Unique(CreateAll(r, prefix, codes).codes)
    ensures r.nextSeq <= CreateAll(r, prefix, codes).nextSeq
  {
    hide SuffixOf;
    var n := |codes|;
    if n > 0 {
      CreationsKeepCounterAhead(r, prefix, codes[..n - 1]);
    }
  }

  /** The suggested code is free, and creating an employee with it succeeds and moves the counter by one. */
  lemma SuggestedCodeIsFresh(r: Roster, prefix: string)
    requires CounterAhead(r, prefix)
    ensures CodeOf(prefix, r.nextSeq) !in r.codes
    ensures Create(r, prefix, CodeOf(prefix, r.nextSeq)) == Roster(r.codes + [CodeOf(prefix, r.nextSeq)], r.nextSeq + 1)
  {
    SuffixOfCode(prefix, r.nextSeq);
  }

  /** After the migration, through any creations with any codes, the next suggestion is always free. */
  lemma SuggestionsAlwaysFresh(n: nat, prefix: string, created: seq<Code>)
    ensures var r := CreateAll(Roster(FinalCodes(n, prefix), n + 1), prefix, created);
            1 <= r.nextSeq && CodeOf(prefix, r.nextSeq) !in r.codes && Unique(r.codes)
  {
    var start := Roster(FinalCodes(n, prefix), n + 1);
    MigrationLeavesCounterAhead(n, prefix);
    forall i, j | 0 <= i < j < n ensures start.codes[i] != start.codes[j] { FinalCodesDiffer(prefix, i + 1, j + 1); }
    CreationsKeepCounterAhead(start, prefix, created);
    SuggestedCodeIsFresh(CreateAll(start, prefix, created), prefix);
  }

  /** The clash is possible: two employees, the younger one already holding the first temporary code. */
  lemma TempClashExists(company: string)
    ensures var codes := ["x", TempCode(company, 1)];
            Unique(codes) && !NoTempClash(codes, company)
  {
    var codes := ["x", TempCode(company, 1)];
    assert |codes[1]| > 1;
    assert HoldsTemp(codes, company, 0, 1);
  }

  // ---- Codes as printed -----------------------------------------------------------------------

  /** One digit is padded with three zeros, four digits and more stand as they are. */
  lemma PaddedTo4(n: nat)
    ensures n < 10 ==> Print4(n) == "000" + [DigitChar(n)]
    ensures |Print(n)| >= 4 ==> Print4(n) == Print(n)
  {
    if n < 10 {
      var d := [DigitChar(n)];
      assert "0" + d == ['0', d[0]] && "0" + ['0', d[0]] == ['0', '0', d[0]] && "0" + ['0', '0', d[0]] == "000" + d;
      assert Padded(d) == Padded(['0', d[0]]) && Padded(['0', d[0]]) == Padded(['0', '0', d[0]]);
      assert Padded(['0', '0', d[0]]) == Padded("000" + d);
    }
  }

  /** A number of up to four digits prints as exactly four characters. */
  lemma {:induction false} PrintedLength(n: nat)
    ensures n < 10 ==> |Print(n)| == 1
    ensures 10 <= n < 100 ==> |Print(n)| == 2
    ensures 100 <= n < 1000 ==> |Print(n)| == 3
    ensures 1000 <= n < 10000 ==> |Print(n)| == 4
    ensures 10000 <= n ==> |Print(n)| > 4
  {
    if n >= 10 {
      PrintedLength(n / 10);
    }
  }

  lemma {:induction false} PaddedLength(s: string)
    requires AllDigits(s)
    ensures |Padded(s)| == if |s| < 4 then 4 else |s|
    decreases 4 - |s|
  {
    if |s| < 4 {
      PaddedLength("0" + s);
    }
  }

  lemma FourDigitsUpTo9999(n: nat)
    ensures |Print4(n)| == 4 <==> n < 10000
  {
    PrintedLength(n);
    PaddedLength(Print(n));
  }

  /** The seventh employee of acme. */
  lemma SeventhCode()
    ensures CodeOf("acme", 7) == "acme-0007"
  {
    PaddedTo4(7);
  }

  /** The prefix is the slug up to its first dash, cut at 16 characters. */
  lemma SlugPrefixIs(slug: string)
    ensures slug == "" ==> SlugPrefix(slug) == "emp"
    ensures slug != "" ==>
              var p := SlugPrefix(slug);
              && p <= slug
              && (slug[0] != '-' ==> '-' !in p && (|p| == 16 || p == slug || slug[|p|] == '-'))
              && (slug[0] == '-' ==> |p| == 16 || p == slug)
  {
    SegmentIs(slug);
  }

  lemma {:induction false} SegmentIs(slug: string)
    ensures var p := Segment(slug);
            p <= slug && '-' !in p && (p == slug || slug[|p|] == '-')
  {
    if slug != "" && slug[0] != '-' {
      SegmentIs(slug[1..]);
      assert slug == [slug[0]] + slug[1..];
    }
  }

  /** The counter moves to just past a number behind the prefix that reached it, and for no other code. */
  lemma RatchetMoves(counter: int, prefix: string, n: nat, foreign: Code)
    requires counter >= 1
    ensures Ratchet(counter, prefix, CodeOf(prefix, n)) == if n < counter then counter else n + 1
    ensures SuffixOf(prefix, foreign).None? ==> Ratchet(counter, prefix, foreign) == counter
  {
    SuffixOfCode(prefix, n);
  }

  /** A code is one of the prefix's exactly when it is the prefix, a dash and at least one digit. */
  lemma SuffixIff(prefix: string, digits: string, code: Code)
    requires AllDigits(digits) && digits != ""
    ensures SuffixOf(prefix, prefix + "-" + digits) == Some(Parse(digits))
    ensures SuffixOf(prefix, code).Some? ==>
              |code| > |prefix| + 1 && code == prefix + "-" + code[|prefix| + 1..] && AllDigits(code[|prefix| + 1..])
  {
    var c := prefix + "-" + digits;
    assert c[..|prefix|] == prefix && c[|prefix| + 1..] == digits;
    if SuffixOf(prefix, code).Some? {
      assert code == code[..|prefix|] + [code[|prefix|]] + code[|prefix| + 1..];
    }
  }

  /** The last digit is the remainder by ten, and what stands before it the quotient. */
  lemma DigitsInOrder()
    ensures Print(12) == "12" && Parse("12") == 12
  {
    assert Print(1) == "1" && Print(12) == Print(1) + ['2'];
    ParsePrint(12);
  }
}
