/** When a second pass of the text clean-up changes nothing, and when it does. */
module SecondPass {
  import opened Strings
  import opened Normalizers

  lemma SentenceTextAgain(style: Style, text: string)
    ensures SentenceText(style, SentenceText(style, text)) == SentenceText(style, text)
  {
    SentenceTextLower(style, text);
    LowerTidy(text, SentenceText(style, text));
    hide Restyle, MixedCase, Lower;
  }

  // ----- garbled texts, character by character -----

  const RAISED := '\U{C2}'

  const LEAD := '\U{E2}'

  const EURO := '\U{20AC}'

  /** The last character of a three-character sequence. */
  predicate IsTail(c: char) {
    || c == '\U{2122}' || c == '\U{2DC}' || c == '\U{153}' || c == '\U{9D}'
    || c == '\U{201C}' || c == '\U{201D}' || c == '\U{A6}'
  }

  predicate TripleAt(s: string, i: nat) {
    i + 2 < |s| && s[i] == LEAD && s[i + 1] == EURO && IsTail(s[i + 2])
  }

  predicate HasTriple(s: string) {
    exists i | 0 <= i < |s| :: TripleAt(s, i)
  }

  lemma KeyShapes()
    ensures forall p | p in MOJIBAKE ::
      p.0 != "" && (p.0[0] == RAISED || (|p.0| == 3 && p.0[0] == LEAD && p.0[1] == EURO && IsTail(p.0[2])))
  {}

  lemma KeyFor(c: char)
    requires IsTail(c)
    ensures exists p | p in MOJIBAKE :: p.0 == [LEAD, EURO, c]
  {
    assert forall k | 1 <= k < 8 :: MOJIBAKE[k] in MOJIBAKE;
    assert MOJIBAKE[1].0 == [LEAD, EURO, '\U{2122}'] && MOJIBAKE[2].0 == [LEAD, EURO, '\U{2DC}'];
    assert MOJIBAKE[3].0 == [LEAD, EURO, '\U{153}'] && MOJIBAKE[4].0 == [LEAD, EURO, '\U{9D}'];
    assert MOJIBAKE[5].0 == [LEAD, EURO, '\U{201C}'] && MOJIBAKE[6].0 == [LEAD, EURO, '\U{201D}'];
    assert MOJIBAKE[7].0 == [LEAD, EURO, '\U{A6}'];
  }

  lemma KeyForRaised()
    ensures exists p | p in MOJIBAKE :: p.0 == [RAISED]
  {
    assert MOJIBAKE[9] in MOJIBAKE && MOJIBAKE[9].0 == [RAISED];
  }

  lemma OccursChar(s: string, c: char)
    ensures Occurs(s, [c]) <==> c in s
  {
    if i :| 0 <= i <= |s| && OccursAt(s, i, [c]) {
      assert s[i..i + 1][0] == s[i];
    }
    if i :| 0 <= i < |s| && s[i] == c {
      assert s[i..i + 1] == [c];
      assert OccursAt(s, i, [c]);
    }
  }

  lemma OccursThree(s: string, i: nat, a: char, b: char, c: char)
    ensures OccursAt(s, i, [a, b, c]) <==> i + 2 < |s| && s[i] == a && s[i + 1] == b && s[i + 2] == c
  {
    if i + 2 < |s| {
      var t := s[i..i + 3];
      assert t[0] == s[i] && t[1] == s[i + 1] && t[2] == s[i + 2];
      assert t == [s[i], s[i + 1], s[i + 2]];
    }
  }

  /** A text is garbled exactly when it holds a raised lead or a three-character sequence. */
  lemma GarbledChars(s: string)
    ensures Garbled(s) <==> RAISED in s || HasTriple(s)
  {
    if Garbled(s) {
      GarbledShows(s);
    }
    hide Occurs;
    if RAISED in s {
      KeyForRaised();
      OccursChar(s, RAISED);
    }
    if i :| 0 <= i < |s| && TripleAt(s, i) {
      hide MOJIBAKE;
      TripleGarbles(s, i);
    }
  }

  lemma TripleGarbles(s: string, i: nat)
    requires TripleAt(s, i)
    ensures Garbled(s)
  {
    hide MOJIBAKE;
    KeyFor(s[i + 2]);
    OccursThree(s, i, LEAD, EURO, s[i + 2]);
  }

  lemma GarbledShows(s: string)
    requires Garbled(s)
    ensures RAISED in s || HasTriple(s)
  {
    KeyShapes();
    hide MOJIBAKE;
    var p, i :| p in MOJIBAKE && 0 <= i <= |s| && OccursAt(s, i, p.0);
    OccursHead(s, i, p.0);
    if p.0[0] != RAISED {
      assert p.0 == [LEAD, EURO, p.0[2]];
      OccursThree(s, i, LEAD, EURO, p.0[2]);
      assert TripleAt(s, i);
    }
  }

  lemma OccursHead(s: string, i: nat, find: string)
    requires find != "" && OccursAt(s, i, find)
    ensures i < |s| && s[i] == find[0]
  {
    assert s[i..i + |find|][0] == s[i];
  }

  // ----- a cleaned text has no raised lead -----

  lemma {:induction false} RemoveAll(s: string, c: char)
    ensures c !in ReplaceAll(s, [c], "")
    decreases |s|
  {
    if s == "" {
    } else {
      RemoveAll(s[1..], c);
      assert s[..1] == [s[0]];
    }
  }

  lemma {:induction false} FixMojibakeSteps(text: string, pairs: seq<(string, string)>, rest: seq<(string, string)>)
    requires Repairs(pairs + rest)
    requires Repairs(pairs) && Repairs(rest)
    ensures FixMojibake(text, pairs + rest) == FixMojibake(FixMojibake(text, pairs), rest)
    decreases |pairs|
  {
    if pairs == [] {
      assert pairs + rest == rest;
    } else {
      assert (pairs + rest)[0] == pairs[0] && (pairs + rest)[1..] == pairs[1..] + rest;
      assert Repairs(pairs[1..] + rest);
      hide ReplaceAll;
      FixMojibakeSteps(ReplaceAll(text, pairs[0].0, pairs[0].1), pairs[1..], rest);
    }
  }

  lemma FixedHasNoRaised(text: string)
    ensures RAISED !in FixMojibake(text)
  {
    MojibakeRepairs();
    var rest := [("\U{C2}", "")];
    assert Repairs(SEQUENCES) && Repairs(rest);
    hide SEQUENCES, ReplaceAll;
    FixMojibakeSteps(text, SEQUENCES, rest);
    var before := FixMojibake(text, SEQUENCES);
    assert rest[1..] == [];
    assert FixMojibake(before, rest) == ReplaceAll(before, [RAISED], "");
    RemoveAll(before, RAISED);
  }

  lemma {:induction false} CollapseMember(s: string, c: char)
    requires c in Collapse(s) && c != ' '
    ensures c in s
  {
    if c != s[0] { CollapseMember(s[1..], c); }
  }

  lemma CleanHasNoRaised(v: Value)
    ensures RAISED !in CleanText(v)
  {
    if v.Truthy() {
      var fixed := FixMojibake(v.Text());
      FixedHasNoRaised(v.Text());
      hide FixMojibake, Collapse, Trim;
      if RAISED in CleanText(v) {
        TrimMember(Collapse(fixed), IsSpace, RAISED);
        CollapseMember(fixed, RAISED);
      }
    }
  }

  // ----- a cleaned text stays within the modelled characters -----

  lemma ModelledConcat(a: string, b: string)
    requires AllModelled(a) && AllModelled(b)
    ensures AllModelled(a + b)
  {}

  lemma ModelledSlice(s: string, lo: nat, hi: nat)
    requires lo <= hi <= |s| && AllModelled(s)
    ensures AllModelled(s[lo..hi])
  {}

  lemma {:induction false} ReplaceModelled(s: string, find: string, with: string)
    requires find != "" && AllModelled(s) && AllModelled(with)
    ensures AllModelled(ReplaceAll(s, find, with))
    decreases |s|
  {
    hide AllModelled;
    if |s| < |find| {
    } else if s[..|find|] == find {
      ModelledSlice(s, |find|, |s|);
      assert s[|find|..|s|] == s[|find|..];
      ReplaceModelled(s[|find|..], find, with);
      ModelledConcat(with, ReplaceAll(s[|find|..], find, with));
    } else {
      ModelledSlice(s, 0, 1);
      ModelledSlice(s, 1, |s|);
      assert s[0..1] == [s[0]] && s[1..|s|] == s[1..];
      ReplaceModelled(s[1..], find, with);
      ModelledConcat([s[0]], ReplaceAll(s[1..], find, with));
    }
  }

  lemma {:induction false} FixModelled(text: string, pairs: seq<(string, string)>)
    requires Repairs(pairs) && AllModelled(text) && forall p | p in pairs :: AllModelled(p.1)
    ensures AllModelled(FixMojibake(text, pairs))
    decreases |pairs|
  {
    if pairs == [] {
    } else {
      hide AllModelled, ReplaceAll;
      ReplaceModelled(text, pairs[0].0, pairs[0].1);
      FixModelled(ReplaceAll(text, pairs[0].0, pairs[0].1), pairs[1..]);
    }
  }

  lemma RepairsModelled()
    ensures forall p | p in MOJIBAKE :: AllModelled(p.1)
  {}

  lemma {:induction false} CollapseModelled(s: string)
    requires AllModelled(s)
    ensures AllModelled(Collapse(s))
  {
    if s == "" {
    } else {
      ModelledSlice(s, 1, |s|);
      CollapseModelled(s[1..]);
      ModelledConcat([s[0]], Collapse(s[1..]));
      ModelledConcat(" ", Collapse(s[1..]));
    }
  }

  lemma TrimModelled(c: string)
    requires AllModelled(c)
    ensures AllModelled(Trim(c, IsSpace))
  {
    hide IsSpace, TrimLeft, TrimRight, AllModelled;
    var left := TrimLeft(c, IsSpace);
    var t := TrimRight(left, IsSpace);
    assert left == c[|c| - |left|..|c|] && t == left[0..|t|];
    ModelledSlice(c, |c| - |left|, |c|);
    ModelledSlice(left, 0, |t|);
  }

  lemma CleanTextModelled(v: Value)
    requires AllModelled(v.Text())
    ensures AllModelled(CleanText(v))
  {
    if v.Truthy() {
      var text := v.Text();
      hide Value.Text, AllModelled, FixMojibake, Collapse, Trim;
      MojibakeRepairs();
      RepairsModelled();
      FixModelled(text, MOJIBAKE);
      CollapseModelled(FixMojibake(text));
      TrimModelled(Collapse(FixMojibake(text)));
    } else {
      EmptyModelled();
    }
  }

  lemma EmptyModelled()
    ensures AllModelled("")
  {}

  // ----- texts that differ in case only -----

  predicate WordStart(s: string, i: nat) {
    i == 0 || (i <= |s| && s[i - 1] == ' ')
  }

  predicate RecasedAt(out: string, s: string, i: nat)
    requires i < |out| && i < |s|
  {
    || out[i] == s[i]
    || (IsAsciiLetter(out[i]) && IsAsciiLetter(s[i]))
    || (WordStart(s, i) && out[i] == UpperChar(s[i]))
  }

  /** ASCII letters may have changed case; any other letter at most was raised at the start of a word. */
  predicate Recased(out: string, s: string) {
    |out| == |s| && forall i | 0 <= i < |s| :: RecasedAt(out, s, i)
  }

  /** Without a raised lead, recasing keeps the three-character sequences. */
  lemma RecasedTriples(out: string, s: string)
    requires Recased(out, s) && RAISED !in out && RAISED !in s
    ensures HasTriple(out) <==> HasTriple(s)
  {
    forall i | 0 <= i && i + 2 < |s|
      ensures TripleAt(out, i) <==> TripleAt(s, i)
    {
      assert RecasedAt(out, s, i) && RecasedAt(out, s, i + 1) && RecasedAt(out, s, i + 2);
      assert out[i] in out && s[i] in s;
    }
  }

  predicate AsciiRecased(out: string, s: string) {
    |out| == |s| && forall i | 0 <= i < |s| :: out[i] == s[i] || (IsAsciiLetter(out[i]) && IsAsciiLetter(s[i]))
  }

  lemma AsciiKeepsGarbled(out: string, s: string)
    requires AsciiRecased(out, s)
    ensures Garbled(out) <==> Garbled(s)
  {
    GarbledChars(out);
    GarbledChars(s);
    hide Garbled;
    AsciiKeepsChar(out, s, RAISED);
    forall i | 0 <= i && i + 2 < |s|
      ensures TripleAt(out, i) <==> TripleAt(s, i)
    {}
  }

  lemma AsciiKeepsChar(out: string, s: string, c: char)
    requires AsciiRecased(out, s) && !IsAsciiLetter(c)
    ensures c in out <==> c in s
  {
    if i :| 0 <= i < |out| && out[i] == c { assert s[i] in s; }
    if i :| 0 <= i < |s| && s[i] == c { assert out[i] in out; }
  }

  lemma RestoreNameAscii(s: string, name: Name)
    ensures AsciiRecased(RestoreName(s, 0, name), s)
  {
    RestoreNameAll(s, name);
    hide RestoreName;
    forall j | 0 <= j < |s|
      ensures RestoredChar(s, j, name) == s[j] || (IsAsciiLetter(RestoredChar(s, j, name)) && IsAsciiLetter(s[j]))
    {
      if MatchesWord(s, j, name) {
        assert s[j + 0] == name[0] && name[0] in name;
      }
    }
  }

  lemma {:induction false} RestoreNamesGarbled(s: string, names: seq<Name>)
    ensures Garbled(RestoreNames(s, names)) <==> Garbled(s)
    decreases |names|
  {
    if names == [] {
    } else {
      hide Garbled, RestoreName, AsciiRecased;
      RestoreNameAscii(s, names[0]);
      AsciiKeepsGarbled(RestoreName(s, 0, names[0]), s);
      RestoreNamesGarbled(RestoreName(s, 0, names[0]), names[1..]);
    }
  }

  // ----- the word loop -----

  lemma KeptUpperAscii(word: string)
    requires IsKept(KEEP_UPPER, word)
    ensures IsAscii(Upper(word))
  {
    hide Trim, Upper, AllEdges, IsAscii;
    TrimUpper(word);
    KeepIsAscii(Trim(Upper(word), IsEdge));
    hide KEEP_UPPER;
    var pre, post := TrimParts(word);
    var core := Trim(word, IsEdge);
    EdgesAscii(pre);
    EdgesAscii(post);
    UpperConcat(pre + core, post);
    UpperConcat(pre, core);
    AsciiConcat(Upper(pre), Upper(core));
    AsciiConcat(Upper(pre) + Upper(core), Upper(post));
  }

  lemma EdgesAscii(s: string)
    requires AllEdges(s)
    ensures IsAscii(Upper(s))
  {
    UpperEdges(s);
  }

  lemma AsciiConcat(a: string, b: string)
    requires IsAscii(a) && IsAscii(b)
    ensures IsAscii(a + b)
  {}

  lemma KeptWordAscii(word: string)
    requires IsKept(KEEP_UPPER, word)
    ensures AsciiRecased(Upper(word), word) && RAISED !in Upper(word)
    ensures word != "" ==> word[0] != LEAD
  {
    KeptUpperAscii(word);
    hide IsKept, KEEP_UPPER;
    UpperIsAscii(word);
  }

  lemma UpperIsAscii(word: string)
    requires IsAscii(Upper(word))
    ensures AsciiRecased(Upper(word), word) && RAISED !in Upper(word)
    ensures word != "" ==> word[0] != LEAD
  {
    var out := Upper(word);
    forall k | 0 <= k < |word|
      ensures out[k] == word[k] || (IsAsciiLetter(out[k]) && IsAsciiLetter(word[k]))
      ensures out[k] != RAISED && word[k] != LEAD
    {
      assert out[k] == UpperChar(word[k]) < '\U{80}';
    }
    hide Upper;
  }

  lemma KeepIsAscii(word: string)
    requires word in KEEP_UPPER
    ensures IsAscii(word)
  {}

  /** A sentence start that the word loop capitalises begins with the lead character. */
  predicate RaisesLeadAt(words: seq<string>, i: nat) {
    i < |words| && StartsSentence(KEEP_UPPER, words, i, true) && words[i] != "" && words[i][0] == LEAD
  }

  predicate RaisesLead(text: string) {
    var words := Split(Lower(text), ' ');
    exists i | 0 <= i < |words| :: RaisesLeadAt(words, i)
  }

  lemma CaseWordRecased(words: seq<string>, i: nat)
    requires i < |words| && RAISED !in words[i]
    ensures var out := CaseWords(KEEP_UPPER, words, true)[i];
      Recased(out, words[i]) && (RAISED in out <==> RaisesLeadAt(words, i))
  {
    hide CaseWords, StartsSentence, KEEP_UPPER, IsKept, Upper, CapitalizeFirst, Recased, AsciiRecased;
    CaseWordsAt(KEEP_UPPER, words, true, i);
    var word := words[i];
    if IsKept(KEEP_UPPER, word) {
      KeptWordAscii(word);
      AsciiIsRecased(Upper(word), word);
    } else {
      RaisedFirst(word);
      RecasedSelf(word);
    }
  }

  lemma AsciiIsRecased(out: string, s: string)
    requires AsciiRecased(out, s)
    ensures Recased(out, s)
  {}

  lemma RecasedSelf(s: string)
    ensures Recased(s, s)
  {}

  lemma RaisedFirst(word: string)
    requires RAISED !in word
    ensures Recased(CapitalizeFirst(word), word)
    ensures RAISED in CapitalizeFirst(word) <==> word != "" && word[0] == LEAD
  {
    if word != "" {
      var out := CapitalizeFirst(word);
      assert word[0] in word;
      assert forall k | 1 <= k < |word| :: out[k] == word[k] && word[k] in word;
      assert out[0] in out;
    }
  }

  lemma RecasedAppend(a: string, b: string, c: string, d: string)
    requires Recased(a, b) && Recased(c, d)
    ensures Recased(a + " " + c, b + " " + d)
  {
    var out, s := a + " " + c, b + " " + d;
    forall i | 0 <= i < |s|
      ensures RecasedAt(out, s, i)
    {
      if i < |b| {
        assert RecasedAt(a, b, i) && out[i] == a[i] && s[i] == b[i];
        assert i > 0 ==> s[i - 1] == b[i - 1];
      } else if i > |b| {
        var k := i - |b| - 1;
        assert RecasedAt(c, d, k) && out[i] == c[k] && s[i] == d[k];
        assert s[i - 1] == if k == 0 then ' ' else d[k - 1];
      }
    }
  }

  lemma {:induction false} JoinRecased(outs: seq<string>, words: seq<string>)
    requires |outs| == |words| && forall i | 0 <= i < |words| :: Recased(outs[i], words[i])
    ensures Recased(Join(outs, " "), Join(words, " "))
  {
    hide Recased;
    if |words| > 1 {
      JoinRecased(outs[1..], words[1..]);
      RecasedAppend(outs[0], words[0], Join(outs[1..], " "), Join(words[1..], " "));
    } else if |words| == 0 {
      RecasedEmpty();
    }
  }

  lemma RecasedEmpty()
    ensures Recased("", "")
  {}

  lemma {:induction false} JoinMember(parts: seq<string>, c: char)
    requires c != ' '
    ensures c in Join(parts, " ") <==> exists i | 0 <= i < |parts| :: c in parts[i]
  {
    if |parts| > 1 {
      JoinMember(parts[1..], c);
      assert Join(parts, " ") == parts[0] + " " + Join(parts[1..], " ");
      if i :| 0 <= i < |parts| && c in parts[i] {
        assert i > 0 ==> parts[1..][i - 1] == parts[i];
      }
      if i :| 0 <= i < |parts| - 1 && c in parts[1..][i] {
        assert parts[i + 1] == parts[1..][i];
      }
    }
  }

  /** The joined words are garbled exactly when a sentence start was raised or a sequence was there. */
  lemma JoinedGarbled(words: seq<string>, outs: seq<string>)
    requires |outs| == |words| && forall i | 0 <= i < |words| :: Recased(outs[i], words[i])
    requires RAISED !in Join(words, " ")
    ensures Garbled(Join(outs, " ")) <==>
      (exists i | 0 <= i < |words| :: RAISED in outs[i]) || HasTriple(Join(words, " "))
  {
    hide Recased, Join, Garbled, HasTriple;
    JoinRecased(outs, words);
    JoinMember(outs, RAISED);
    GarbledChars(Join(outs, " "));
    if RAISED !in Join(outs, " ") {
      RecasedTriples(Join(outs, " "), Join(words, " "));
    }
  }

  lemma CasedWords(words: seq<string>)
    requires forall i | 0 <= i < |words| :: RAISED !in words[i]
    ensures forall i | 0 <= i < |words| :: Recased(CaseWords(KEEP_UPPER, words, true)[i], words[i])
    ensures (exists i | 0 <= i < |words| :: RAISED in CaseWords(KEEP_UPPER, words, true)[i]) <==>
      exists i | 0 <= i < |words| :: RaisesLeadAt(words, i)
  {
    hide CaseWords, Recased, RaisesLeadAt, KEEP_UPPER;
    forall i | 0 <= i < |words|
      ensures Recased(CaseWords(KEEP_UPPER, words, true)[i], words[i])
      ensures RAISED in CaseWords(KEEP_UPPER, words, true)[i] <==> RaisesLeadAt(words, i)
    {
      CaseWordRecased(words, i);
    }
  }

  /** What the restyled text holds, in terms of the lowered one. */
  lemma RestyledGarbled(text: string)
    ensures Garbled(Restyle(ARCHIVE_STYLE, Lower(text))) <==> RaisesLead(text) || HasTriple(Lower(text))
  {
    hide CaseWords, Recased, RaisesLeadAt, Lower, Split, Join, Garbled, HasTriple, KEEP_UPPER, PROPER_NAMES;
    var words := Split(Lower(text), ' ');
    var outs := CaseWords(KEEP_UPPER, words, true);
    LoweredWords(text);
    CasedWords(words);
    JoinSplit(Lower(text), ' ');
    assert Join(words, " ") == Lower(text);
    JoinedGarbled(words, outs);
    RestoreNamesGarbled(Join(outs, " "), PROPER_NAMES);
    assert Restyle(ARCHIVE_STYLE, Lower(text)) == RestoreNames(Join(outs, " "), PROPER_NAMES);
    hide RestoreNames, Restyle;
    assert RaisesLead(text) <==> exists i | 0 <= i < |words| :: RaisesLeadAt(words, i);
  }

  lemma LoweredWords(text: string)
    ensures RAISED !in Lower(text)
    ensures forall i | 0 <= i < |Split(Lower(text), ' ')| :: RAISED !in Split(Lower(text), ' ')[i]
  {
    assert forall i | 0 <= i < |text| :: LowerChar(text[i]) != RAISED;
    var words := Split(Lower(text), ' ');
    SplitChars(Lower(text), ' ');
    forall i | 0 <= i < |words|
      ensures RAISED !in words[i]
    {
      assert words[i] in words;
    }
  }

  // ----- the exact condition -----

  /** Lower case turns this into a mis-decoded sequence. */
  const CAPITAL_TRIPLE := "\U{E2}\U{20AC}\U{152}"

  lemma LoweredTriples(text: string)
    requires RAISED !in text
    ensures HasTriple(Lower(text)) <==> Garbled(text) || Occurs(text, CAPITAL_TRIPLE)
  {
    GarbledChars(text);
    hide Garbled;
    var lowered := Lower(text);
    forall i | 0 <= i && i + 2 < |text|
      ensures TripleAt(lowered, i) <==> TripleAt(text, i) || OccursAt(text, i, CAPITAL_TRIPLE)
    {
      assert text[i] in text;
      OccursThree(text, i, LEAD, EURO, '\U{152}');
    }
    if i :| 0 <= i <= |text| && OccursAt(text, i, CAPITAL_TRIPLE) {
      assert TripleAt(lowered, i);
    }
    if i :| 0 <= i < |lowered| && TripleAt(lowered, i) {
      assert TripleAt(text, i) || OccursAt(text, i, CAPITAL_TRIPLE);
    }
    if i :| 0 <= i < |text| && TripleAt(text, i) {
      assert TripleAt(lowered, i);
    }
  }

  /** Neither lowering nor capitalising this cleaned text makes a mis-decoded sequence. */
  predicate Steady(text: string) {
    !Occurs(text, CAPITAL_TRIPLE) && !RaisesLead(text)
  }

  /** Which cleaned texts sentence case leaves or makes garbled. */
  lemma ResultGarbled(text: string)
    requires AllModelled(text) && RAISED !in text
    ensures Garbled(SentenceText(ARCHIVE_STYLE, text)) <==> Garbled(text) || !(MixedCase(text) || Steady(text))
  {
    if text == "" {
      EmptySteady();
    } else if !MixedCase(text) {
      RestyledGarbled(text);
      LoweredTriples(text);
      hide Restyle, Garbled, Occurs, RaisesLead, HasTriple;
    }
  }

  lemma EmptySteady()
    ensures Steady("")
  {
    assert Lower("") == "" && Split("", ' ') == [""];
    hide Split, Lower, StartsSentence;
    assert forall i | 0 <= i < 1 :: !RaisesLeadAt([""], i);
    assert forall i | 0 <= i <= 0 :: !OccursAt("", i, CAPITAL_TRIPLE);
  }

  /**
   * A second pass changes nothing exactly when the cleaned text holds no mis-decoded sequence and,
   * unless it is left alone for its mixed case, neither lowering nor capitalising makes one.
   */
  lemma SentenceCaseIdempotent(v: Value)
    requires AllModelled(v.Text())
    ensures SentenceCase(Str(SentenceCase(v))) == SentenceCase(v) <==>
      var text := CleanText(v);
      !Garbled(text) && (MixedCase(text) || Steady(text))
  {
    var text, result := CleanText(v), SentenceCase(v);
    CleanHasNoRaised(v);
    CleanTextModelled(v);
    ResultGarbled(text);
    hide Garbled, Restyle, MixedCase, Steady, CleanText;
    SentenceTextLower(ARCHIVE_STYLE, text);
    CleanTextTidy(v);
    LowerTidy(text, result);
    CleanTextFixpoint(result);
    SentenceTextAgain(ARCHIVE_STYLE, text);
    if Garbled(result) {
      CleanTextShrinks(result);
      SentenceTextLower(ARCHIVE_STYLE, CleanText(Str(result)));
      LowerTidy(CleanText(Str(result)), SentenceCase(Str(result)));
    }
  }

  // ----- ASCII -----

  predicate IsAscii(s: string) { forall i | 0 <= i < |s| :: s[i] < '\U{80}' }

  lemma TrimAscii(c: string)
    requires IsAscii(c)
    ensures IsAscii(Trim(c, IsSpace))
  {
    var left := TrimLeft(c, IsSpace);
    var t := TrimRight(left, IsSpace);
    var n := |c| - |left|;
    hide TrimLeft, TrimRight, IsSpace;
    forall i | 0 <= i < |t|
      ensures t[i] < '\U{80}'
    {
      assert t[i] == left[i] == c[n + i];
    }
  }

  lemma CleanTextAscii(v: Value)
    requires IsAscii(v.Text())
    ensures IsAscii(CleanText(v))
  {
    if v.Truthy() {
      var text := v.Text();
      hide Value.Text, IsAscii, FixMojibake, Collapse, Garbled, Trim;
      AsciiNotGarbled(text);
      FixMojibakeFixpoint(text);
      CollapseAscii(text);
      TrimAscii(Collapse(text));
    }
  }

  lemma AsciiNoTriple(text: string)
    requires IsAscii(text)
    ensures !Occurs(text, CAPITAL_TRIPLE)
  {
    if i :| 0 <= i <= |text| && OccursAt(text, i, CAPITAL_TRIPLE) {
      OccursHead(text, i, CAPITAL_TRIPLE);
      assert false;
    }
  }

  lemma AsciiRaisesNothing(text: string)
    requires IsAscii(text)
    ensures !RaisesLead(text)
  {
    assert forall i | 0 <= i < |text| :: Lower(text)[i] != LEAD;
    var words := Split(Lower(text), ' ');
    SplitChars(Lower(text), ' ');
    hide Split, Lower, StartsSentence;
    forall i | 0 <= i < |words|
      ensures !RaisesLeadAt(words, i)
    {
      if words[i] != "" { assert words[i] in words && words[i][0] in words[i]; }
    }
  }

  lemma AsciiSteady(text: string)
    requires IsAscii(text)
    ensures Steady(text)
  {
    hide IsAscii, Occurs, RaisesLead;
    AsciiNoTriple(text);
    AsciiRaisesNothing(text);
  }

  lemma AsciiModelled(s: string)
    requires IsAscii(s)
    ensures AllModelled(s)
  {}

  /** In particular, for every ASCII value. */
  lemma SentenceCaseIdempotentOnAscii(v: Value)
    requires IsAscii(v.Text())
    ensures SentenceCase(Str(SentenceCase(v))) == SentenceCase(v)
  {
    AsciiModelled(v.Text());
    hide SentenceCase, CleanText, Garbled, IsAscii, Steady, MixedCase, AllModelled;
    CleanTextAscii(v);
    AsciiNotGarbled(CleanText(v));
    AsciiSteady(CleanText(v));
    SentenceCaseIdempotent(v);
  }

  lemma MojibakeLeads()
    ensures forall p | p in MOJIBAKE :: p.0 != "" && p.0[0] >= '\U{C2}'
  {}

  lemma AsciiNotGarbled(s: string)
    requires IsAscii(s)
    ensures !Garbled(s)
  {
    MojibakeLeads();
    hide MOJIBAKE;
    if p, i :| p in MOJIBAKE && 0 <= i <= |s| && OccursAt(s, i, p.0) {
      OccursHead(s, i, p.0);
      assert false;
    }
  }

  lemma {:induction false} CollapseAscii(s: string)
    requires IsAscii(s)
    ensures IsAscii(Collapse(s))
  {
    if s == "" {
    } else {
      assert forall i | 0 <= i < |s| - 1 :: s[1..][i] == s[i + 1];
      CollapseAscii(s[1..]);
    }
  }

  // ----- texts on which the second pass differs -----

  lemma NoPair(s: string, find: string)
    requires |find| >= 2 && forall i | 0 <= i < |s| - 1 :: s[i] != find[0] || s[i + 1] != find[1]
    ensures !Occurs(s, find)
  {
    forall i | 0 <= i <= |s|
      ensures !OccursAt(s, i, find)
    {
      if i + |find| <= |s| { assert s[i..i + |find|][0] == s[i] && s[i..i + |find|][1] == s[i + 1]; }
    }
  }

  lemma {:induction false} FixMojibakeSkips(text: string, pairs: seq<(string, string)>, rest: seq<(string, string)>)
    requires Repairs(pairs + rest)
    requires forall p | p in pairs :: !Occurs(text, p.0)
    ensures FixMojibake(text, pairs + rest) == FixMojibake(text, rest)
    decreases |pairs|
  {
    if pairs == [] {
      assert pairs + rest == rest;
    } else {
      var first := pairs[0];
      assert (pairs + rest)[0] == first && (pairs + rest)[1..] == pairs[1..] + rest;
      ReplaceShrinks(text, first.0, first.1);
      assert Repairs(pairs[1..] + rest);
      FixMojibakeSkips(text, pairs[1..], rest);
    }
  }

  const STRAY := "\U{E2}\U{C2}\U{20AC}\U{2122}"

  const JOINED := "\U{E2}\U{20AC}\U{2122}"

  lemma StrayNotSequence()
    ensures forall p | p in SEQUENCES :: !Occurs(STRAY, p.0)
  {
    hide Occurs;
    forall p | p in SEQUENCES
      ensures !Occurs(STRAY, p.0)
    {
      NoPair(STRAY, p.0);
    }
  }

  lemma StrayFixed()
    ensures FixMojibake(STRAY) == JOINED
  {
    MojibakeRepairs();
    StrayNotSequence();
    StrayDropped();
    hide SEQUENCES, ReplaceAll, Occurs, STRAY, JOINED;
    var rest := [("\U{C2}", "")];
    FixMojibakeSkips(STRAY, SEQUENCES, rest);
    assert rest[1..] == [];
    assert FixMojibake(STRAY, rest) == ReplaceAll(STRAY, "\U{C2}", "");
  }

  /** Dropping a stray character can bring a new mis-decoded sequence together, which only a second pass sees. */
  lemma StrayComesBack()
    ensures SentenceCase(Str(SentenceCase(Str(STRAY)))) != SentenceCase(Str(STRAY))
  {
    hide SentenceCase, FixMojibake, Squeeze, Garbled;
    StrayFixed();
    CleanJoined();
    ComesBackGarbled();
    StrayModelled();
    SentenceCaseIdempotent(Str(STRAY));
  }

  lemma StrayModelled()
    ensures AllModelled(STRAY)
  {}

  lemma ComesBackGarbled()
    ensures Garbled(JOINED)
  {
    assert OccursAt(JOINED, 0, MOJIBAKE[1].0);
    assert Occurs(JOINED, MOJIBAKE[1].0);
    hide Occurs;
  }

  lemma CleanJoined()
    ensures Squeeze(JOINED) == JOINED
  {
    CollapseTidy(JOINED);
    TrimNothing(JOINED);
  }

  lemma StrayDropped()
    ensures ReplaceAll(STRAY, "\U{C2}", "") == JOINED
  {
    var text, find := STRAY, "\U{C2}";
    ReplaceAllAbsent(text[2..], find, "");
    assert text[1..][1..] == text[2..] && text[1..][..1] == find;
    assert ReplaceAll(text[1..], find, "") == text[2..];
    assert text[..1] != find;
    assert JOINED == [text[0]] + text[2..];
  }

  lemma {:induction false} CountAppend(a: string, b: string)
    ensures CountUpper(a + b) == CountUpper(a) + CountUpper(b)
    ensures CountLetters(a + b) == CountLetters(a) + CountLetters(b)
  {
    if a == "" {
      assert a + b == b;
    } else {
      CountAppend(a[1..], b);
      assert (a + b)[1..] == a[1..] + b;
    }
  }

  lemma {:induction false} NoLowerCount(s: string)
    requires forall i | 0 <= i < |s| :: !IsLower(s[i])
    ensures CountLetters(s) == CountUpper(s)
  {
    if s == "" {
    } else {
      NoLowerCount(s[1..]);
    }
  }

  /** Four capitals outweigh one small letter. */
  lemma OneLowerShouts(head: string, c: char, tail: string)
    requires forall i | 0 <= i < |head| :: !IsLower(head[i])
    requires forall i | 0 <= i < |tail| :: !IsLower(tail[i])
    requires CountUpper(head) + CountUpper(tail) >= 4
    ensures !MixedCase(head + [c] + tail)
  {
    NoLowerCount(head);
    NoLowerCount(tail);
    CountAppend(head + [c], tail);
    CountAppend(head, [c]);
    assert [c][1..] == "";
  }

  lemma {:induction false} CapitalRun(s: string, k: nat)
    requires k <= |s| && forall i | 0 <= i < k :: IsUpper(s[i])
    ensures CountUpper(s) >= k
  {
    if k == 0 {
    } else {
      CapitalRun(s[1..], k - 1);
    }
  }

  lemma SteadyPass(text: string)
    requires AllModelled(text) && Tidy(text) && RAISED !in text && !HasTriple(text)
    ensures CleanText(Str(text)) == text && !Garbled(text)
    ensures !MixedCase(text) && !Steady(text) ==> SentenceCase(Str(SentenceCase(Str(text)))) != SentenceCase(Str(text))
  {
    hide Tidy, Garbled, HasTriple, CleanText, SentenceCase, MixedCase, Steady, AllModelled;
    GarbledChars(text);
    CleanTextFixpoint(text);
    SentenceCaseIdempotent(Str(text));
  }

  /** A small lead at the start of a shouted text: the first pass capitalises it, the second deletes it. */
  const SMALL_LEAD := "\U{E2}BC DEF GHI JKL"

  lemma SmallLeadShouts()
    ensures !MixedCase(SMALL_LEAD)
  {
    hide MixedCase, CountUpper, CountLetters;
    var tail := "BC DEF GHI JKL";
    assert SMALL_LEAD == "" + [LEAD] + tail && tail == "BC" + " DEF GHI JKL" && " DEF GHI JKL" == " " + "DEF GHI JKL";
    CapitalRun("BC", 2);
    CapitalRun("DEF GHI JKL", 3);
    CountAppend("BC", " DEF GHI JKL");
    CountAppend(" ", "DEF GHI JKL");
    OneLowerShouts("", LEAD, tail);
  }

  lemma SmallLeadRaised()
    ensures RaisesLead(SMALL_LEAD)
  {
    var words := Split(Lower(SMALL_LEAD), ' ');
    assert Lower(SMALL_LEAD)[0] == LEAD;
    hide Lower;
    assert RaisesLeadAt(words, 0);
  }

  lemma TidyJoin(a: string, b: string)
    requires Tidy(a) && Tidy(b) && a != "" && b != ""
    ensures Tidy(a + " " + b)
  {
    var t := a + " " + b;
    assert !IsSpace(a[|a| - 1]) && !IsSpace(b[0]);
    forall i | 0 <= i < |t| && IsSpace(t[i])
      ensures t[i] == ' ' && 0 < i < |t| - 1 && !IsSpace(t[i + 1])
    {
      if i < |a| {
        assert t[i] == a[i] && t[i + 1] == a[i + 1];
      } else if i > |a| {
        assert t[i] == b[i - |a| - 1] && t[i + 1] == b[i - |a|];
      } else {
        assert t[i + 1] == b[0];
      }
    }
    hide IsSpace;
  }

  lemma TidyWord(word: string)
    requires forall i | 0 <= i < |word| :: !IsSpace(word[i])
    ensures Tidy(word)
  {}

  lemma SmallLeadTidy()
    ensures Tidy(SMALL_LEAD)
  {
    hide Tidy;
    TidyWord("\U{E2}BC");
    TidyWord("DEF");
    TidyWord("GHI");
    TidyWord("JKL");
    var two := "\U{E2}BC" + " " + "DEF";
    var three := two + " " + "GHI";
    TidyJoin("\U{E2}BC", "DEF");
    TidyJoin(two, "GHI");
    TidyJoin(three, "JKL");
    assert SMALL_LEAD == three + " " + "JKL";
  }

  lemma SmallLeadModelled()
    ensures AllModelled(SMALL_LEAD)
  {}

  lemma SmallLeadClean()
    ensures RAISED !in SMALL_LEAD && !HasTriple(SMALL_LEAD)
  {}

  lemma SmallLeadVanishes()
    ensures CleanText(Str(SMALL_LEAD)) == SMALL_LEAD && !Garbled(SMALL_LEAD)
    ensures SentenceCase(Str(SentenceCase(Str(SMALL_LEAD)))) != SentenceCase(Str(SMALL_LEAD))
  {
    hide MixedCase, Garbled, CleanText, SentenceCase, RaisesLead, Tidy, HasTriple, Occurs, AllModelled;
    SmallLeadTidy();
    SmallLeadModelled();
    SmallLeadClean();
    SmallLeadShouts();
    SmallLeadRaised();
    SteadyPass(SMALL_LEAD);
  }

  const SHOUTED := "HELLO WORLD AGAIN "

  /** A capital ligature after a stray pair: lowering it makes a sequence that the second pass replaces. */
  const CAPITAL_LIGATURE := SHOUTED + CAPITAL_TRIPLE + "X"

  lemma CapitalLigatureShouts()
    ensures !MixedCase(CAPITAL_LIGATURE)
  {
    hide MixedCase, CountUpper, CountLetters;
    var tail := "\U{20AC}\U{152}X";
    assert CAPITAL_LIGATURE == SHOUTED + [LEAD] + tail;
    CapitalRun(SHOUTED, 5);
    OneLowerShouts(SHOUTED, LEAD, tail);
  }

  lemma CapitalLigatureTriple()
    ensures Occurs(CAPITAL_LIGATURE, CAPITAL_TRIPLE)
  {
    OccursThree(CAPITAL_LIGATURE, |SHOUTED|, LEAD, EURO, '\U{152}');
    assert OccursAt(CAPITAL_LIGATURE, |SHOUTED|, CAPITAL_TRIPLE);
  }

  lemma CapitalLigatureTidy()
    ensures Tidy(CAPITAL_LIGATURE)
  {
    hide Tidy;
    var last := CAPITAL_TRIPLE + "X";
    TidyWord("HELLO");
    TidyWord("WORLD");
    TidyWord("AGAIN");
    TidyWord(last);
    var two := "HELLO" + " " + "WORLD";
    var three := two + " " + "AGAIN";
    TidyJoin("HELLO", "WORLD");
    TidyJoin(two, "AGAIN");
    TidyJoin(three, last);
    assert CAPITAL_LIGATURE == three + " " + last;
  }

  lemma CapitalLigatureModelled()
    ensures AllModelled(CAPITAL_LIGATURE)
  {}

  lemma CapitalLigatureClean()
    ensures RAISED !in CAPITAL_LIGATURE && !HasTriple(CAPITAL_LIGATURE)
  {}

  lemma CapitalLigatureVanishes()
    ensures CleanText(Str(CAPITAL_LIGATURE)) == CAPITAL_LIGATURE && !Garbled(CAPITAL_LIGATURE)
    ensures SentenceCase(Str(SentenceCase(Str(CAPITAL_LIGATURE)))) != SentenceCase(Str(CAPITAL_LIGATURE))
  {
    hide MixedCase, Garbled, CleanText, SentenceCase, RaisesLead, Tidy, HasTriple, Occurs, AllModelled;
    CapitalLigatureTidy();
    CapitalLigatureModelled();
    CapitalLigatureClean();
    CapitalLigatureShouts();
    CapitalLigatureTriple();
    SteadyPass(CAPITAL_LIGATURE);
  }
}
