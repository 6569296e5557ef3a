/** What the text clean-up means, said without naming its own steps. */
module TextLaws {
  import opened Sequences
  import opened Strings
  import opened Normalizers

  // ----- mis-decoded sequences -----

  /** The UTF-8 bytes of a character below U+10000. */
  function Utf8(c: char): seq<int> {
    var n := c as int;
    if n < 0x80 then [n]
    else if n < 0x800 then [0xC0 + n / 64, 0x80 + n % 64]
    else [0xE0 + n / 4096, 0x80 + n / 64 % 64, 0x80 + n % 64]
  }

  /** How Windows-1252 reads a byte; from 0x80 on only those that the repaired characters need are listed. */
  function Windows1252(byte: int): char
    requires 0 <= byte < 0x100
  {
    if byte == 0x80 then '\U{20AC}'
    else if byte == 0x93 then '\U{201C}'
    else if byte == 0x94 then '\U{201D}'
    else if byte == 0x98 then '\U{2DC}'
    else if byte == 0x99 then '\U{2122}'
    else if byte == 0x9C then '\U{153}'
    else byte as char
  }

  /** The sign, the two dashes and the ellipsis are restored; quotation marks become plain. */
  function Plainly(c: char): string {
    if c == '\U{2018}' || c == '\U{2019}' then "'"
    else if c == '\U{201C}' || c == '\U{201D}' then "\""
    else [c]
  }

  const REPAIRED := "\U{A3}\U{2019}\U{2018}\U{201C}\U{201D}\U{2013}\U{2014}\U{2026}"

  predicate IsMisreading(find: string, c: char) {
    && |find| == |Utf8(c)|
    && forall i | 0 <= i < |find| :: 0 <= Utf8(c)[i] < 0x100 && find[i] == Windows1252(Utf8(c)[i])
  }

  /**
   * The repairs are the characters U+A3, the quotation marks, the dashes and the ellipsis, each written in
   * UTF-8 and misread as Windows-1252; then a stray U+C2 before a space, and any other.
   */
  lemma RepairsAreMisreadings()
    ensures |MOJIBAKE| == 10
    ensures forall k | 0 <= k < 8 ::
      IsMisreading(MOJIBAKE[k].0, REPAIRED[k]) && MOJIBAKE[k].1 == Plainly(REPAIRED[k])
    ensures MOJIBAKE[8] == ("\U{C2} ", " ") && MOJIBAKE[9] == ("\U{C2}", "")
  {
    Misread0();
    Misread1();
    Misread2();
  }

  lemma Misread0()
    ensures forall k | 0 <= k < 3 ::
      IsMisreading(MOJIBAKE[k].0, REPAIRED[k]) && MOJIBAKE[k].1 == Plainly(REPAIRED[k])
  {
    assert Utf8(REPAIRED[0]) == [0xC2, 0xA3];
    assert Utf8(REPAIRED[1]) == [0xE2, 0x80, 0x99];
    assert Utf8(REPAIRED[2]) == [0xE2, 0x80, 0x98];
  }

  lemma Misread1()
    ensures forall k | 3 <= k < 6 ::
      IsMisreading(MOJIBAKE[k].0, REPAIRED[k]) && MOJIBAKE[k].1 == Plainly(REPAIRED[k])
  {
    assert Utf8(REPAIRED[3]) == [0xE2, 0x80, 0x9C];
    assert Utf8(REPAIRED[4]) == [0xE2, 0x80, 0x9D];
    assert Utf8(REPAIRED[5]) == [0xE2, 0x80, 0x93];
  }

  lemma Misread2()
    ensures forall k | 6 <= k < 8 ::
      IsMisreading(MOJIBAKE[k].0, REPAIRED[k]) && MOJIBAKE[k].1 == Plainly(REPAIRED[k])
  {
    assert Utf8(REPAIRED[6]) == [0xE2, 0x80, 0x94];
    assert Utf8(REPAIRED[7]) == [0xE2, 0x80, 0xA6];
  }

  /** The leftmost occurrence is replaced, and then what follows it. */
  lemma {:induction false} ReplaceFirst(front: string, find: string, rest: string, with: string)
    requires find != "" && forall i | 0 <= i < |front| :: !OccursAt(front + find, i, find)
    ensures ReplaceAll(front + find + rest, find, with) == front + with + ReplaceAll(rest, find, with)
  {
    var s := front + find + rest;
    hide OccursAt;
    if front == "" {
      assert s == find + rest;
      assert s[..|find|] == find && s[|find|..] == rest;
    } else {
      LaterFirst(front, find);
      NotYet(front, find, rest);
      ReplaceFirst(front[1..], find, rest, with);
      ReplaceStep(s, find, with);
      assert s[1..] == front[1..] + find + rest;
      assert front == [front[0]] + front[1..];
    }
  }

  lemma ReplaceStep(s: string, find: string, with: string)
    requires find != "" && |s| >= |find| && s[..|find|] != find
    ensures ReplaceAll(s, find, with) == [s[0]] + ReplaceAll(s[1..], find, with)
  {}

  lemma NotYet(front: string, find: string, rest: string)
    requires front != "" && !OccursAt(front + find, 0, find)
    ensures (front + find + rest)[..|find|] != find
  {
    assert (front + find + rest)[..|find|] == (front + find)[0..|find|];
  }

  lemma LaterFirst(front: string, find: string)
    requires front != "" && forall i | 0 <= i < |front| :: !OccursAt(front + find, i, find)
    ensures forall i | 0 <= i < |front[1..]| :: !OccursAt(front[1..] + find, i, find)
  {
    forall i | 0 <= i < |front[1..]|
      ensures !OccursAt(front[1..] + find, i, find)
    {
      LaterAt(front, find, i);
    }
  }

  lemma LaterAt(front: string, find: string, i: nat)
    requires front != "" && i < |front| - 1 && !OccursAt(front + find, i + 1, find)
    ensures !OccursAt(front[1..] + find, i, find)
  {
    assert (front + find)[1..] == front[1..] + find;
    if i + |find| <= |front[1..] + find| {
      assert (front + find)[i + 1..i + 1 + |find|] == (front[1..] + find)[i..i + |find|];
    }
  }

  /** Where nothing occurs, nothing is replaced. */
  lemma {:induction false} ReplaceNothing(s: string, find: string, with: string)
    requires find != "" && !Occurs(s, find)
    ensures ReplaceAll(s, find, with) == s
    decreases |s|
  {
    if |s| >= |find| {
      assert !OccursAt(s, 0, find) && s[0..|find|] == s[..|find|];
      OccursTail(s, find);
      hide Occurs;
      ReplaceNothing(s[1..], find, with);
      assert s == [s[0]] + s[1..];
    }
  }

  // ----- sentence case -----

  /** The positions that hold a letter, and those that hold a capital. */
  function Letters(text: string): set<nat> { set i | 0 <= i < |text| && IsLetter(text[i]) }

  function Capitals(text: string): set<nat> { set i | 0 <= i < |text| && IsUpper(text[i]) }

  /** The positions one further on. */
  function Next(tail: set<nat>): set<nat> { set i | i in tail :: i + 1 }

  lemma {:induction false} NextSize(tail: set<nat>)
    ensures |Next(tail)| == |tail|
  {
    if tail == {} {
      assert Next(tail) == {};
    } else {
      hide Next;
      var x :| x in tail;
      NextSize(tail - {x});
      NextWithout(tail, x);
    }
  }

  lemma NextWithout(tail: set<nat>, x: nat)
    requires x in tail
    ensures Next(tail) == Next(tail - {x}) + {x + 1} && x + 1 !in Next(tail - {x})
  {
    hide Next;
    forall i: nat
      ensures i in Next(tail) <==> i in Next(tail - {x}) || i == x + 1
    {
      NextMember(tail, i);
      NextMember(tail - {x}, i);
    }
    NextMember(tail - {x}, x + 1);
  }

  lemma NextMember(tail: set<nat>, i: nat)
    ensures i in Next(tail) <==> i > 0 && i - 1 in tail
  {
    if i > 0 && i - 1 in tail {
      var k: nat := i - 1;
      assert k in tail && k + 1 in Next(tail);
    }
  }

  lemma FirstAndNext(all: set<nat>, tail: set<nat>, first: bool)
    requires all == Next(tail) + if first then {0} else {}
    ensures |all| == |tail| + if first then 1 else 0
  {
    NextSize(tail);
    assert 0 !in Next(tail);
    if first { assert all == Next(tail) + {0}; } else { assert all == Next(tail); }
    hide Next;
  }

  lemma LettersStep(text: string)
    requires text != ""
    ensures Letters(text) == Next(Letters(text[1..])) + if IsLetter(text[0]) then {0} else {}
    ensures Capitals(text) == Next(Capitals(text[1..])) + if IsUpper(text[0]) then {0} else {}
  {
    hide IsUpper, IsLower, IsLetter;
    forall i: nat | i > 0
      ensures i in Letters(text) <==> i in Next(Letters(text[1..]))
      ensures i in Capitals(text) <==> i in Next(Capitals(text[1..]))
    {
      assert i < |text| ==> text[1..][i - 1] == text[i];
      NextMember(Letters(text[1..]), i);
      NextMember(Capitals(text[1..]), i);
    }
  }

  lemma {:induction false} CountsAreSizes(text: string)
    ensures CountLetters(text) == |Letters(text)| && CountUpper(text) == |Capitals(text)|
  {
    if text == "" {
      assert Letters(text) == {} && Capitals(text) == {};
    } else {
      hide Letters, Capitals, Next, IsUpper, IsLower, IsLetter;
      CountsAreSizes(text[1..]);
      LettersStep(text);
      FirstAndNext(Letters(text), Letters(text[1..]), IsLetter(text[0]));
      FirstAndNext(Capitals(text), Capitals(text[1..]), IsUpper(text[0]));
    }
  }

  /** A text is taken for mixed case exactly when fewer than 80 % of its letters are capitals. */
  lemma MixedCaseShare(text: string)
    ensures MixedCase(text) <==>
      Letters(text) != {} && |Capitals(text)| as real / |Letters(text)| as real < 0.8
  {
    CountsAreSizes(text);
    var u, l := |Capitals(text)|, |Letters(text)|;
    if l > 0 { ShareBelow(u, l); }
  }

  lemma ShareBelow(u: nat, l: nat)
    requires l > 0
    ensures u as real / l as real < 0.8 <==> 5 * u < 4 * l
  {
    ShareOf(u as real, l as real);
    AsReal(u, l);
  }

  lemma ShareOf(x: real, y: real)
    requires y > 0.0
    ensures x / y < 0.8 <==> 5.0 * x < 4.0 * y
  {
    var q := x / y;
    Quotient(x, y);
    Scaled(q, 0.8, y);
  }

  lemma Quotient(x: real, y: real)
    requires y > 0.0
    ensures x / y * y == x
  {}

  lemma AsReal(u: nat, l: nat)
    ensures 5.0 * (u as real) < 4.0 * (l as real) <==> 5 * u < 4 * l
  {
    assert (5 * u) as real == 5.0 * (u as real) && (4 * l) as real == 4.0 * (l as real);
  }

  lemma Scaled(q: real, k: real, y: real)
    requires y > 0.0
    ensures q < k <==> q * y < k * y
  {
    if q < k { Positive(k - q, y); } else if q > k { Positive(q - k, y); }
  }

  lemma Positive(d: real, y: real)
    requires d > 0.0 && y > 0.0
    ensures d * y > 0.0
  {}

  /** Mixed case passes through untouched. */
  lemma MixedCaseStays(v: Value)
    requires MixedCase(CleanText(v))
    ensures SentenceCase(v) == CleanText(v)
  {
    hide CleanText;
  }

  /** A sentence ends with a full stop, an exclamation mark or a question mark. */
  lemma SentenceEnds(word: string)
    ensures EndsSentence(word) <==>
      exists front: string :: word == front + "." || word == front + "!" || word == front + "?"
  {
    if EndsSentence(word) {
      var front := word[..|word| - 1];
      assert word == front + [word[|word| - 1]];
    }
  }

  predicate IsPunctuation(s: string) {
    forall c | c in s :: c in ".,()"
  }

  /** A listed acronym is recognised in any case and inside brackets, commas and full stops, and keeps its capitals. */
  lemma AcronymKept(keep: Acronyms, pre: string, core: string, post: string, capitalizeNext: bool)
    requires Upper(core) in keep && IsPunctuation(pre) && IsPunctuation(post)
    requires core != "" ==> core[0] !in ".,()" && core[|core| - 1] !in ".,()"
    ensures CaseWord(keep, pre + core + post, capitalizeNext) == pre + Upper(core) + post
  {
    var word := pre + core + post;
    assert core != "" by { UpperEmpty(); }
    TrimCore(pre, core, post);
    TrimUpper(word);
    KeptWordUpper(keep, word, capitalizeNext);
    PunctuationEdges(pre);
    PunctuationEdges(post);
    UpperEdges(pre);
    UpperEdges(post);
    UpperConcat(pre + core, post);
    UpperConcat(pre, core);
  }

  lemma PunctuationEdges(s: string)
    requires IsPunctuation(s)
    ensures AllEdges(s)
  {
    forall i | 0 <= i < |s|
      ensures IsEdge(s[i])
    {
      assert s[i] in s;
    }
  }

  lemma TrimCore(pre: string, core: string, post: string)
    requires IsPunctuation(pre) && IsPunctuation(post) && core != ""
    requires core[0] !in ".,()" && core[|core| - 1] !in ".,()"
    ensures Trim(pre + core + post, IsEdge) == core
  {
    PunctuationEdges(pre);
    PunctuationEdges(post);
    assert !IsEdge(core[0]) && !IsEdge(core[|core| - 1]);
    TrimExact(pre, core, post, IsEdge);
  }

  predicate AllDrop(s: string, drop: char -> bool) { forall i | 0 <= i < |s| :: drop(s[i]) }

  /** The one way to strip a text: what is left keeps neither end. */
  lemma TrimExact(pre: string, core: string, post: string, drop: char -> bool)
    requires AllDrop(pre, drop) && AllDrop(post, drop)
    requires core != "" ==> !drop(core[0]) && !drop(core[|core| - 1])
    ensures Trim(pre + core + post, drop) == core
  {
    if core == "" {
      assert pre + core + post == pre + post && AllDrop(pre + post, drop);
      TrimLeftAll(pre + post, drop);
    } else {
      assert pre + core + post == pre + (core + post);
      TrimLeftPart(pre, core + post, drop);
      TrimRightPart(core, post, drop);
    }
  }

  lemma {:induction false} TrimLeftAll(s: string, drop: char -> bool)
    requires AllDrop(s, drop)
    ensures TrimLeft(s, drop) == ""
  {
    if s == "" {
    } else {
      assert forall i | 0 <= i < |s| - 1 :: s[1..][i] == s[i + 1];
      TrimLeftAll(s[1..], drop);
    }
  }

  lemma {:induction false} TrimLeftPart(pre: string, rest: string, drop: char -> bool)
    requires AllDrop(pre, drop) && rest != "" && !drop(rest[0])
    ensures TrimLeft(pre + rest, drop) == rest
  {
    if pre == "" {
      assert pre + rest == rest;
    } else {
      assert (pre + rest)[1..] == pre[1..] + rest;
      TrimLeftPart(pre[1..], rest, drop);
    }
  }

  lemma {:induction false} TrimRightPart(core: string, post: string, drop: char -> bool)
    requires core != "" && !drop(core[|core| - 1]) && AllDrop(post, drop)
    ensures TrimRight(core + post, drop) == core
  {
    var s := core + post;
    if post == "" {
      assert s == core;
    } else {
      assert s[|s| - 1] == post[|post| - 1];
      assert s[..|s| - 1] == core + post[..|post| - 1];
      TrimRightPart(core, post[..|post| - 1], drop);
    }
  }

  lemma Stripped(s: string, drop: char -> bool) returns (pre: string, post: string)
    ensures s == pre + Trim(s, drop) + post && AllDrop(pre, drop) && AllDrop(post, drop)
    ensures Trim(s, drop) != "" ==> !drop(Trim(s, drop)[0]) && !drop(Trim(s, drop)[|Trim(s, drop)| - 1])
  {
    hide TrimLeft, TrimRight, AllDrop;
    var left := TrimLeft(s, drop);
    var core := Trim(s, drop);
    pre := s[..|s| - |left|];
    post := left[|core|..];
    Dropped(s, left, core, drop);
    Glue(pre, left, core, post, s);
    Ends(s, drop);
  }

  lemma Ends(s: string, drop: char -> bool)
    ensures Trim(s, drop) != "" ==> !drop(Trim(s, drop)[0]) && !drop(Trim(s, drop)[|Trim(s, drop)| - 1])
  {
    hide TrimLeft, TrimRight;
    var left := TrimLeft(s, drop);
    var core := TrimRight(left, drop);
    assert core != "" ==> core[0] == left[0];
  }

  lemma Glue(pre: string, left: string, core: string, post: string, s: string)
    requires s == pre + left && left == core + post
    ensures s == pre + core + post
  {}

  lemma Dropped(s: string, left: string, core: string, drop: char -> bool)
    requires left == TrimLeft(s, drop) && core == TrimRight(left, drop)
    ensures s == s[..|s| - |left|] + left && AllDrop(s[..|s| - |left|], drop)
    ensures left == core + left[|core|..] && AllDrop(left[|core|..], drop)
  {
    var n, k := |s| - |left|, |core|;
    assert left == s[n..] && forall i | 0 <= i < n :: drop(s[i]);
    assert core == left[..k] && forall i | k <= i < |left| :: drop(left[i]);
    hide TrimLeft, TrimRight;
    FrontDrops(s, n, drop);
    BackDrops(left, k, drop);
  }

  lemma FrontDrops(s: string, n: nat, drop: char -> bool)
    requires n <= |s| && forall i | 0 <= i < n :: drop(s[i])
    ensures s == s[..n] + s[n..] && AllDrop(s[..n], drop)
  {}

  lemma BackDrops(s: string, n: nat, drop: char -> bool)
    requires n <= |s| && forall i | n <= i < |s| :: drop(s[i])
    ensures s == s[..n] + s[n..] && AllDrop(s[n..], drop)
  {}

  // ----- title case -----

  /** In title case a letter is a capital exactly when no letter stands before it. */
  lemma {:induction false} TitleCaseAt(s: string, afterLetter: bool, i: nat)
    requires i < |s|
    ensures |TitleCase(s, afterLetter)| == |s|
    ensures var before := if i == 0 then afterLetter else IsLetter(s[i - 1]);
      TitleCase(s, afterLetter)[i] == if before then LowerChar(s[i]) else UpperChar(s[i])
  {
    TitleCaseLength(s, afterLetter);
    if i == 0 {
    } else {
      TitleCaseAt(s[1..], IsLetter(s[0]), i - 1);
      assert s[1..][i - 1] == s[i];
      if i > 1 { assert s[1..][i - 2] == s[i - 1]; }
    }
  }

  lemma {:induction false} TitleCaseLength(s: string, afterLetter: bool)
    ensures |TitleCase(s, afterLetter)| == |s|
  {
    if s == "" {
    } else {
      TitleCaseLength(s[1..], IsLetter(s[0]));
    }
  }

  // ----- tags -----

  /** The segments are the pieces of the repaired text between its commas and semicolons. */
  function Commas(text: string): string {
    seq(|text|, i requires 0 <= i < |text| => if text[i] == ';' then ',' else text[i])
  }

  lemma SegmentsExact(keywords: string)
    ensures Join(Segments(keywords), ",") == Commas(FixMojibake(keywords))
    ensures forall segment | segment in Segments(keywords) :: ',' !in segment && ';' !in segment
  {
    hide FixMojibake, Split, Join;
    var text := FixMojibake(keywords);
    CommasReplace(text);
    JoinSplit(Commas(text), ',');
    SplitChars(Commas(text), ',');
    assert ';' !in Commas(text);
  }

  lemma {:induction false} CommasReplace(s: string)
    ensures ReplaceAll(s, ";", ",") == Commas(s)
  {
    if s == "" {
    } else {
      CommasReplace(s[1..]);
      assert s[..1] == [s[0]];
      assert Commas(s) == [Commas(s)[0]] + Commas(s[1..]);
    }
  }

  /** The words of a segment, single-spaced, without spaces and full stops at the ends, in lower case. */
  function TagText(segment: string): string {
    Lower(Trim(Join(Words(segment), " "), IsSpaceOrDot))
  }

  lemma AllSpaces(s: string, whole: string, lo: nat)
    requires SingleSpaced(whole) && lo + |s| <= |whole| && s == whole[lo..lo + |s|] && AllDrop(s, IsSpace)
    ensures AllDrop(s, IsSpaceOrDot)
  {
    forall i | 0 <= i < |s|
      ensures s[i] == ' '
    {
      assert s[i] == whole[lo + i];
    }
  }

  /** Stripping spaces before stripping spaces and full stops makes no difference. */
  lemma StripTwice(c: string)
    requires SingleSpaced(c)
    ensures Trim(Trim(c, IsSpace), IsSpaceOrDot) == Trim(c, IsSpaceOrDot)
  {
    hide Trim, IsSpace, IsSpaceOrDot, SingleSpaced, AllDrop;
    var m := Trim(c, IsSpace);
    var pre, post := Stripped(c, IsSpace);
    var a, z := Stripped(m, IsSpaceOrDot);
    var t := Trim(m, IsSpaceOrDot);
    assert pre == c[0..|pre|];
    AllSpaces(pre, c, 0);
    assert post == c[|c| - |post|..|c|];
    AllSpaces(post, c, |c| - |post|);
    Regroup(pre, a, t, z, post);
    AllDropConcat(pre, a, IsSpaceOrDot);
    AllDropConcat(z, post, IsSpaceOrDot);
    TrimExact(pre + a, t, z + post, IsSpaceOrDot);
  }

  lemma Regroup(pre: string, a: string, t: string, z: string, post: string)
    ensures pre + (a + t + z) + post == (pre + a) + t + (z + post)
  {}

  lemma AllDropConcat(a: string, b: string, drop: char -> bool)
    requires AllDrop(a, drop) && AllDrop(b, drop)
    ensures AllDrop(a + b, drop)
  {}

  /** The tag of a segment is its text, cut to fifty characters; none if that is too short or a print reference. */
  lemma TagOfExact(segment: string)
    ensures TagOf(segment) ==
      var t := TagText(segment);
      if |t| < 2 || IsRefno(t) then None else Some(if |t| <= 50 then t else t[..50])
  {
    hide Trim, Collapse, Words, Join, IsRefno, Lower, SingleSpaced, IsSpaceOrDot, IsSpace;
    SqueezeWords(segment);
    CollapseSingle(segment);
    StripTwice(Collapse(segment));
  }

  /** One to five digits, a separator, and one to five digits. */
  predicate RefnoParts(t: string, a: string, c: char, b: string) {
    t == a + [c] + b && c in "/_-" && 1 <= |a| <= 5 && AllDigits(a) && 1 <= |b| <= 5 && AllDigits(b)
  }

  lemma RefnoExact(t: string)
    ensures IsRefno(t) <==> exists a: string, c: char, b: string :: RefnoParts(t, a, c, b)
  {
    if IsRefno(t) { RefnoSplits(t); }
    if a: string, c: char, b: string :| RefnoParts(t, a, c, b) { RefnoJoins(t, a, c, b); }
  }

  lemma RefnoSplits(t: string)
    requires IsRefno(t)
    ensures exists a: string, c: char, b: string :: RefnoParts(t, a, c, b)
  {
    hide AllDigits;
    var k :| 1 <= k <= 5 && k + 1 < |t| <= k + 6 && (t[k] == '/' || t[k] == '_' || t[k] == '-') &&
      AllDigits(t[..k]) && AllDigits(t[k + 1..]);
    Around(t, k);
    assert t[k] in "/_-";
    assert RefnoParts(t, t[..k], t[k], t[k + 1..]);
  }

  lemma Around(t: string, k: nat)
    requires k < |t|
    ensures t == t[..k] + [t[k]] + t[k + 1..]
  {}

  lemma RefnoJoins(t: string, a: string, c: char, b: string)
    requires RefnoParts(t, a, c, b)
    ensures IsRefno(t)
  {
    hide AllDigits;
    var k := |a|;
    assert t[..k] == a;
    assert t[k] == c;
    assert t[k + 1..] == b;
  }
}
