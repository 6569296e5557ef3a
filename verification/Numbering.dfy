/** The two allocators of the ingestion layer: catalogue numbers and slugs. */
module Numbering {
  import opened Sequences
  import opened Strings
  import opened Normalizers

  // ----- decimal arithmetic -----

  function Pow10(k: nat): nat { if k == 0 then 1 else 10 * Pow10(k - 1) }

  function Zeros(k: nat): (s: string)
    ensures |s| == k && AllDigits(s)
  {
    if k == 0 then "" else "0" + Zeros(k - 1)
  }

  lemma NumberLast(s: string)
    requires s != "" && AllDigits(s)
    ensures Number(s) == 10 * Number(s[..|s| - 1]) + DigitValue(s[|s| - 1])
  {}

  lemma Shift(d: nat, p: nat)
    ensures 10 * (d * p) == d * (10 * p)
  {}

  lemma {:induction false} NumberHead(s: string)
    requires s != "" && AllDigits(s)
    ensures Number(s) == DigitValue(s[0]) * Pow10(|s| - 1) + Number(s[1..])
  {
    var n := |s| - 1;
    if n == 0 {
      assert s[..0] == "" && s[1..] == "";
    } else {
      var front := s[..n];
      hide Number;
      NumberHead(front);
      NumberLast(s);
      assert s[1..][..n - 1] == front[1..] && s[1..][n - 1] == s[n] && front[0] == s[0];
      NumberLast(s[1..]);
      Shift(DigitValue(s[0]), Pow10(n - 1));
    }
  }

  lemma {:induction false} NumberBound(s: string)
    requires AllDigits(s)
    ensures Number(s) < Pow10(|s|)
  {
    if s == "" {
    } else {
      NumberBound(s[..|s| - 1]);
      assert s[|s| - 1] in s;
    }
  }

  lemma {:induction false} NumberPadded(k: nat, s: string)
    requires AllDigits(s)
    ensures AllDigits(Zeros(k) + s) && Number(Zeros(k) + s) == Number(s)
  {
    var t := Zeros(k) + s;
    if s != "" {
      NumberPadded(k, s[..|s| - 1]);
      assert t[..|t| - 1] == Zeros(k) + s[..|s| - 1];
    } else if k > 0 {
      NumberPadded(k - 1, "");
      assert t == "0" + Zeros(k - 1) && Zeros(k - 1) + "" == Zeros(k - 1);
      NumberHead(t);
      assert t[1..] == Zeros(k - 1);
      assert DigitValue('0') * Pow10(k - 1) == 0;
    }
  }

  lemma {:induction false} DigitsLength(n: nat, k: nat)
    requires k > 0
    ensures |Digits(n)| <= k <==> n < Pow10(k)
  {
    if n >= 10 {
      if k == 1 {
        assert Pow10(1) == 10;
      } else {
        DigitsLength(n / 10, k - 1);
      }
    } else {
      assert Pow10(k) >= 10 by { Pow10Grows(k); }
    }
  }

  lemma {:induction false} Pow10Grows(k: nat)
    requires k > 0
    ensures Pow10(k) >= 10
  {
    if k == 1 {
    } else {
      Pow10Grows(k - 1);
    }
  }

  // ----- next_asset_number -----

  const PREFIX := "KNA-"

  const LAST_SERIAL: nat := 999999

  /** `^KNA-\d{6}$` */
  predicate IsAssetNumber(s: string) {
    |s| == 10 && s[..4] == PREFIX && AllDigits(s[4..])
  }

  function Serial(s: string): nat
    requires IsAssetNumber(s)
  {
    Number(s[4..])
  }

  /** `f"{n:06d}"` */
  function SixDigits(n: nat): string {
    var d := Digits(n);
    if |d| < 6 then Zeros(6 - |d|) + d else d
  }

  function Format(n: nat): string {
    PREFIX + SixDigits(n)
  }

  /** Text order, character by character. */
  predicate LexLeq(a: string, b: string) {
    a == "" || (b != "" && (a[0] < b[0] || (a[0] == b[0] && LexLeq(a[1..], b[1..]))))
  }

  /** First row of the descending text order among the well-formed numbers. */
  function LastNumber(numbers: seq<string>): (last: Option<string>)
    ensures last.Some? ==> last.value in numbers && IsAssetNumber(last.value)
  {
    if numbers == [] then None
    else
      var rest, s := LastNumber(numbers[..|numbers| - 1]), numbers[|numbers| - 1];
      if IsAssetNumber(s) && (rest == None || LexLeq(rest.value, s)) then Some(s) else rest
  }

  function NextAssetNumber(numbers: seq<string>): string {
    match LastNumber(numbers)
    case Some(last) => Format(Serial(last) + 1)
    case None => Format(1)
  }

  /** Zero-padded text order is numeric order. */
  lemma {:induction false} LexIsNumeric(a: string, b: string)
    requires |a| == |b| && AllDigits(a) && AllDigits(b)
    ensures LexLeq(a, b) <==> Number(a) <= Number(b)
  {
    if a == "" {
    } else {
      LexIsNumeric(a[1..], b[1..]);
      NumberHead(a);
      NumberHead(b);
      NumberBound(a[1..]);
      NumberBound(b[1..]);
      var p, x, y := Pow10(|a| - 1), DigitValue(a[0]), DigitValue(b[0]);
      if x < y { Dominates(p, x, y); }
      if y < x { Dominates(p, y, x); }
    }
  }

  lemma Dominates(p: nat, x: nat, y: nat)
    requires x < y
    ensures x * p + p <= y * p
  {
    assert y * p == x * p + (y - x) * p;
    assert (y - x) * p == p + (y - x - 1) * p;
  }

  lemma LexOnNumbers(a: string, b: string)
    requires IsAssetNumber(a) && IsAssetNumber(b)
    ensures LexLeq(a, b) <==> Serial(a) <= Serial(b)
  {
    assert a[..4][0] == 'K' && b[..4][0] == 'K' && a[..4][1] == 'N' && b[..4][1] == 'N';
    assert a[..4][2] == 'A' && b[..4][2] == 'A' && a[..4][3] == '-' && b[..4][3] == '-';
    LexStep(a, b);
    LexStep(a[1..], b[1..]);
    LexStep(a[2..], b[2..]);
    LexStep(a[3..], b[3..]);
    assert a[1..][1..] == a[2..] && a[2..][1..] == a[3..] && a[3..][1..] == a[4..];
    assert b[1..][1..] == b[2..] && b[2..][1..] == b[3..] && b[3..][1..] == b[4..];
    LexIsNumeric(a[4..], b[4..]);
  }

  lemma LexStep(a: string, b: string)
    requires a != "" && b != "" && a[0] == b[0]
    ensures LexLeq(a, b) == LexLeq(a[1..], b[1..])
  {}

  /** The serial of the row the query returns; 0 when there is none. */
  function MaxSerial(numbers: seq<string>): nat {
    match LastNumber(numbers)
    case Some(last) => Serial(last)
    case None => 0
  }

  /** The text-ordered query finds the greatest serial. */
  lemma {:induction false} MaxSerialIsMax(numbers: seq<string>)
    ensures forall s | s in numbers && IsAssetNumber(s) :: Serial(s) <= MaxSerial(numbers)
    ensures MaxSerial(numbers) <= LAST_SERIAL
    ensures LastNumber(numbers) == None <==> forall s | s in numbers :: !IsAssetNumber(s)
  {
    if numbers == [] {
    } else {
      var front, s := numbers[..|numbers| - 1], numbers[|numbers| - 1];
      MaxSerialIsMax(front);
      assert numbers == front + [s];
      if IsAssetNumber(s) {
        NumberBound(s[4..]);
        assert Pow10(6) == 1000000;
        if LastNumber(front).Some? { LexOnNumbers(LastNumber(front).value, s); }
      }
    }
  }

  /** Parsing inverts formatting, below and above six digits. */
  lemma FormatInverse(n: nat)
    ensures AllDigits(Format(n)[4..]) && Number(Format(n)[4..]) == n
    ensures IsAssetNumber(Format(n)) <==> n <= LAST_SERIAL
  {
    var d := Digits(n);
    assert Format(n)[4..] == SixDigits(n) && Format(n)[..4] == PREFIX;
    NumberDigits(n);
    DigitsLength(n, 6);
    assert Pow10(6) == 1000000;
    if |d| < 6 { NumberPadded(6 - |d|, d); }
  }

  /** "KNA-" and the serial, in six digits as long as it fits. */
  lemma FormatShape(n: nat)
    ensures Format(n)[..4] == "KNA-"
    ensures n <= 999999 ==> |Format(n)| == 10
    ensures n > 999999 ==> Format(n) == "KNA-" + Digits(n)
  {
    DigitsLength(n, 6);
    assert Pow10(6) == 1000000;
    assert Format(n)[..4] == PREFIX;
    hide Digits;
  }

  /** Where no well-formed number is in use, counting starts at one. */
  lemma FirstNumber(numbers: seq<string>)
    requires forall s | s in numbers :: !IsAssetNumber(s)
    ensures NextAssetNumber(numbers) == "KNA-000001"
  {
    MaxSerialIsMax(numbers);
    hide LastNumber, IsAssetNumber;
    assert Zeros(5) == "00000" by { FiveZeros(); }
    assert Digits(1) == "1";
  }

  lemma FiveZeros()
    ensures Zeros(5) == "00000"
  {
    assert Zeros(2) == "00";
    assert Zeros(3) == "000";
    assert Zeros(4) == "0000";
  }

  /** The allocated number is new exactly when serials remain, or the first overflowing one is unused. */
  lemma NextIsFresh(numbers: seq<string>)
    ensures NextAssetNumber(numbers) == Format(MaxSerial(numbers) + 1)
    ensures NextAssetNumber(numbers) !in numbers <==>
      MaxSerial(numbers) < LAST_SERIAL || Format(LAST_SERIAL + 1) !in numbers
  {
    hide Format, Digits;
    MaxSerialIsMax(numbers);
    FormatInverse(MaxSerial(numbers) + 1);
  }

  /** The numbers handed out by k creations in a row. */
  function Allocate(numbers: seq<string>, k: nat): (out: seq<string>)
    ensures |out| == k
    decreases k
  {
    if k == 0 then []
    else
      var s := NextAssetNumber(numbers);
      [s] + Allocate(numbers + [s], k - 1)
  }

  function Min(a: nat, b: nat): nat { if a < b then a else b }

  lemma MaxSerialAfter(numbers: seq<string>)
    ensures MaxSerial(numbers + [NextAssetNumber(numbers)]) == Min(MaxSerial(numbers) + 1, LAST_SERIAL)
  {
    var s := NextAssetNumber(numbers);
    var more := numbers + [s];
    assert more[..|more| - 1] == numbers;
    MaxSerialIsMax(numbers);
    MaxSerialIsMax(more);
    FormatInverse(MaxSerial(numbers) + 1);
    if IsAssetNumber(s) && LastNumber(numbers).Some? { LexOnNumbers(LastNumber(numbers).value, s); }
    hide Format, LexLeq;
  }

  /** Consecutive serials, until six digits run out and one number repeats for ever. */
  lemma {:induction false} AllocateAt(numbers: seq<string>, k: nat, i: nat)
    requires i < k
    ensures Allocate(numbers, k)[i] == Format(Min(MaxSerial(numbers) + 1 + i, LAST_SERIAL + 1))
    decreases k
  {
    hide Format, NextAssetNumber, MaxSerial;
    MaxSerialIsMax(numbers);
    NextIsFresh(numbers);
    if i == 0 {
    } else {
      MaxSerialAfter(numbers);
      AllocateAt(numbers + [NextAssetNumber(numbers)], k - 1, i - 1);
    }
  }

  predicate AllNew(numbers: seq<string>, out: seq<string>) {
    NoDuplicates(out) && forall s | s in out :: s !in numbers
  }

  /** A run of creations gets pairwise distinct, unused numbers exactly while it fits the six digits. */
  lemma AllocationBound(numbers: seq<string>, k: nat)
    ensures var top := MaxSerial(numbers) + k;
      AllNew(numbers, Allocate(numbers, k)) <==>
        k == 0 || top <= LAST_SERIAL || (top == LAST_SERIAL + 1 && Format(LAST_SERIAL + 1) !in numbers)
  {
    hide Format, Allocate, MaxSerial;
    var out, m := Allocate(numbers, k), MaxSerial(numbers);
    MaxSerialIsMax(numbers);
    forall i | 0 <= i < k
      ensures out[i] == Format(Min(m + 1 + i, LAST_SERIAL + 1))
    {
      AllocateAt(numbers, k, i);
    }
    if k > 0 && m + k <= LAST_SERIAL + 1 && (m + k <= LAST_SERIAL || Format(LAST_SERIAL + 1) !in numbers) {
      forall i, j | 0 <= i < j < k
        ensures out[i] != out[j]
      {
        FormatInverse(m + 1 + i);
        FormatInverse(m + 1 + j);
      }
      forall i | 0 <= i < k
        ensures out[i] !in numbers
      {
        FormatInverse(m + 1 + i);
      }
    } else if k > 0 {
      assert out[k - 1] == Format(LAST_SERIAL + 1);
      if m + k > LAST_SERIAL + 1 {
        assert k >= 2 && out[k - 2] == out[k - 1];
      } else {
        assert out[k - 1] in out;
      }
    }
  }

  // ----- _unique_slug -----

  const SLUG_LIMIT: nat := 95

  const TAG_SLUG_LIMIT: nat := 50

  function BaseSlug(slugified: string): string {
    if Prefix(slugified, SLUG_LIMIT) != "" then Prefix(slugified, SLUG_LIMIT) else "item"
  }

  /** The n-th name the loop tries: slug, slug-2, slug-3, ... */
  function Candidate(slug: string, n: nat): string
    requires n > 0
  {
    if n == 1 then slug else slug + "-" + Digits(n)
  }

  /** A slug is cut to 95 characters, and a name without one is an item; the second try is numbered 2. */
  lemma SlugShape(slugified: string, n: nat)
    ensures slugified == "" ==> BaseSlug(slugified) == "item"
    ensures 0 < |slugified| <= 95 ==> BaseSlug(slugified) == slugified
    ensures |slugified| > 95 ==> BaseSlug(slugified) == slugified[..95]
    ensures Candidate(slugified, 1) == slugified && Candidate(slugified, 2) == slugified + "-2"
    ensures n > 1 ==> Candidate(slugified, n) == slugified + "-" + IntString(n)
  {
    assert Digits(2) == "2";
    hide Digits;
    assert slugified + "-" + "2" == slugified + "-2";
  }

  lemma CandidateInjective(slug: string, m: nat, n: nat)
    requires 0 < m && 0 < n && Candidate(slug, m) == Candidate(slug, n)
    ensures m == n
  {
    if m > 1 && n > 1 {
      var skip := |slug| + 1;
      assert Candidate(slug, m)[skip..] == Digits(m) && Candidate(slug, n)[skip..] == Digits(n);
      DigitsInjective(m, n);
    } else {
      assert |Candidate(slug, m)| == |Candidate(slug, n)|;
    }
  }

  lemma {:induction false} SubsetSize<T>(small: set<T>, big: set<T>)
    requires small <= big
    ensures |small| <= |big|
  {
    if small == {} {
    } else {
      var x :| x in small;
      SubsetSize(small - {x}, big - {x});
    }
  }

  /** The first k candidates. */
  ghost function Candidates(slug: string, k: nat): set<string> {
    set m | 1 <= m <= k :: Candidate(slug, m)
  }

  lemma CandidatesFresh(slug: string, n: nat)
    requires n > 0
    ensures Candidate(slug, n) !in Candidates(slug, n - 1)
    ensures Candidates(slug, n) == Candidates(slug, n - 1) + {Candidate(slug, n)}
  {
    if Candidate(slug, n) in Candidates(slug, n - 1) {
      var m :| 1 <= m <= n - 1 && Candidate(slug, m) == Candidate(slug, n);
      CandidateInjective(slug, m, n);
      assert false;
    }
    hide Candidate;
  }

  /** The loop stops here: this candidate is free and all before it are in use. */
  ghost predicate FirstFree(live: set<string>, slug: string, n: nat) {
    && n > 0 && Candidate(slug, n) !in live
    && forall m | 1 <= m < n :: Candidate(slug, m) in live
  }

  /** The first free candidate; at most one probe more than there are live slugs. */
  method UniqueSlug(live: set<string>, slugified: string) returns (candidate: string)
    ensures exists n | 1 <= n <= |live| + 1 ::
      candidate == Candidate(BaseSlug(slugified), n) && FirstFree(live, BaseSlug(slugified), n)
  {
    var slug := BaseSlug(slugified);
    candidate := slug;
    var n := 2;
    ghost var tried: set<string> := {};
    while candidate in live
      invariant n >= 2 && candidate == Candidate(slug, n - 1)
      invariant tried <= live && |tried| == n - 2
      invariant tried == Candidates(slug, n - 2)
      decreases |live| - |tried|
    {
      CandidatesFresh(slug, n - 1);
      tried := tried + {candidate};
      SubsetSize(tried, live);
      candidate := slug + "-" + Digits(n);
      n := n + 1;
    }
    SubsetSize(tried, live);
    forall m | 1 <= m < n - 1
      ensures Candidate(slug, m) in live
    {
      assert Candidate(slug, m) in tried;
    }
  }

  // ----- tags cut the slug afterwards -----

  /** A leading part of a number's digits denotes a smaller number. */
  lemma {:induction false} DigitsPrefix(n: nat, k: nat) returns (m: nat)
    requires n > 0 && 0 < k < |Digits(n)|
    ensures 0 < m < n && Digits(m) == Digits(n)[..k]
  {
    assert Digits(n)[..|Digits(n)| - 1] == Digits(n / 10);
    if k == |Digits(n)| - 1 {
      m := n / 10;
    } else {
      m := DigitsPrefix(n / 10, k);
      assert Digits(n)[..k] == Digits(n / 10)[..k];
    }
  }

  /** Whether the first free candidate is still unused after the cut. */
  predicate SurvivesCut(live: set<string>, slug: string, n: nat)
    requires n > 0
  {
    if |Candidate(slug, n)| <= TAG_SLUG_LIMIT then true
    else if n == 1 || |slug| > TAG_SLUG_LIMIT then slug[..TAG_SLUG_LIMIT] !in live
    else if |slug| == TAG_SLUG_LIMIT then false
    else if |slug| == TAG_SLUG_LIMIT - 1 then slug + "-" !in live
    else Digits(n)[..TAG_SLUG_LIMIT - 1 - |slug|] == "1" && slug + "-1" !in live
  }

  lemma CutSuffix(slug: string, n: nat)
    requires n > 1 && |slug| < TAG_SLUG_LIMIT < |Candidate(slug, n)|
    ensures Prefix(Candidate(slug, n), TAG_SLUG_LIMIT) == slug + "-" + Digits(n)[..TAG_SLUG_LIMIT - 1 - |slug|]
  {
    hide Digits;
    var k, d := TAG_SLUG_LIMIT - 1 - |slug|, Digits(n);
    var head := slug + "-" + d[..k];
    assert d == d[..k] + d[k..];
    assert Candidate(slug, n) == head + d[k..];
    assert |head| == TAG_SLUG_LIMIT;
    assert (head + d[k..])[..|head|] == head;
  }

  /**
   * The cut slug of a new tag is unused exactly when nothing was cut, or the remains of a long slug
   * happen to be unused. A suffix cut down to a number other than 1 always collides with an earlier
   * candidate; the unique column then refuses the tag, and the record that brought it is not stored.
   */
  lemma TagSlugFree(live: set<string>, slug: string, n: nat)
    requires FirstFree(live, slug, n)
    ensures Prefix(Candidate(slug, n), TAG_SLUG_LIMIT) !in live <==> SurvivesCut(live, slug, n)
  {
    var cut := Prefix(Candidate(slug, n), TAG_SLUG_LIMIT);
    if |Candidate(slug, n)| <= TAG_SLUG_LIMIT || n == 1 {
    } else if |slug| >= TAG_SLUG_LIMIT {
      assert cut == slug[..TAG_SLUG_LIMIT];
      assert |slug| == TAG_SLUG_LIMIT ==> cut == Candidate(slug, 1);
    } else {
      var k := TAG_SLUG_LIMIT - 1 - |slug|;
      CutSuffix(slug, n);
      hide Digits;
      if k == 0 {
        assert cut == slug + "-";
      } else {
        var m := DigitsPrefix(n, k);
        DigitsOne(m);
        assert m > 1 ==> cut == Candidate(slug, m);
        assert slug + "-" + "1" == slug + "-1";
      }
    }
  }

  lemma DigitsOne(m: nat)
    ensures Digits(m) == "1" <==> m == 1
  {
    if Digits(m) == "1" { DigitsInjective(m, 1); }
  }

  /** `_unique_slug(Tag, name)[:50]` */
  method TagSlug(live: set<string>, slugified: string) returns (cut: string)
    ensures exists n | FirstFree(live, BaseSlug(slugified), n) ::
      cut == Prefix(Candidate(BaseSlug(slugified), n), TAG_SLUG_LIMIT)
      && (cut !in live <==> SurvivesCut(live, BaseSlug(slugified), n))
  {
    var candidate := UniqueSlug(live, slugified);
    ghost var n :| FirstFree(live, BaseSlug(slugified), n) && candidate == Candidate(BaseSlug(slugified), n);
    TagSlugFree(live, BaseSlug(slugified), n);
    cut := Prefix(candidate, TAG_SLUG_LIMIT);
  }

  /** A slug of 49 characters: its suffix is cut away, and the rest is in use. */
  lemma TagSlugLosesSuffix(slug: string)
    requires |slug| == TAG_SLUG_LIMIT - 1
    ensures var live := {slug, slug + "-"};
      FirstFree(live, slug, 2) && Prefix(Candidate(slug, 2), TAG_SLUG_LIMIT) in live
  {
    var live := {slug, slug + "-"};
    assert |Candidate(slug, 2)| == |slug| + 2;
    assert Candidate(slug, 1) == slug;
    TagSlugFree(live, slug, 2);
  }
}
