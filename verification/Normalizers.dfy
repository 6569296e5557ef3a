/** The text clean-up of apps/ingestion/normalizers.py. Characters that are not `IsModelled` count as no letters. */
module Normalizers {
  import opened Sequences
  import opened Strings

  /** A scalar of a JSON record. A key that is absent reads as `Null`. */
  datatype Value = Null | Str(s: string) | Num(n: int) {
    predicate Truthy() {
      match this
      case Null => false
      case Str(s) => s != ""
      case Num(n) => n != 0
    }

    /** Python's `str(value)`. */
    function Text(): string {
      match this
      case Null => "None"
      case Str(s) => s
      case Num(n) => IntString(n)
    }
  }

  // ----- fix_mojibake, clean_text -----

  const SEQUENCES: seq<(string, string)> := [
    ("\U{C2}\U{A3}", "\U{A3}"),
    ("\U{E2}\U{20AC}\U{2122}", "'"),
    ("\U{E2}\U{20AC}\U{2DC}", "'"),
    ("\U{E2}\U{20AC}\U{153}", "\""),
    ("\U{E2}\U{20AC}\U{9D}", "\""),
    ("\U{E2}\U{20AC}\U{201C}", "\U{2013}"),
    ("\U{E2}\U{20AC}\U{201D}", "\U{2014}"),
    ("\U{E2}\U{20AC}\U{A6}", "\U{2026}"),
    ("\U{C2} ", " ")
  ]

  /** The stray lead character goes last. */
  const MOJIBAKE: seq<(string, string)> := SEQUENCES + [("\U{C2}", "")]

  predicate OccursAt(s: string, i: nat, find: string) {
    i + |find| <= |s| && s[i..i + |find|] == find
  }

  predicate Occurs(s: string, find: string) {
    exists i | 0 <= i <= |s| :: OccursAt(s, i, find)
  }

  /** The text still holds a mis-decoded sequence. */
  predicate Garbled(s: string, pairs: seq<(string, string)> := MOJIBAKE) {
    exists p | p in pairs :: Occurs(s, p.0)
  }

  function FixMojibake(text: string, pairs: seq<(string, string)> := MOJIBAKE): string
    requires forall p | p in pairs :: p.0 != ""
    decreases |pairs|
  {
    if pairs == [] then text
    else FixMojibake(ReplaceAll(text, pairs[0].0, pairs[0].1), pairs[1..])
  }

  /** Each repair shortens the text. */
  predicate Repairs(pairs: seq<(string, string)>) {
    forall p | p in pairs :: |p.1| < |p.0|
  }

  lemma OccursTail(s: string, find: string)
    requires s != "" && find != ""
    ensures Occurs(s, find) <==> OccursAt(s, 0, find) || Occurs(s[1..], find)
  {
    forall i | 0 <= i < |s|
      ensures OccursAt(s, i + 1, find) == OccursAt(s[1..], i, find)
    {
      if i + 1 + |find| <= |s| { assert s[i + 1..i + 1 + |find|] == s[1..][i..i + |find|]; }
    }
    if i :| 0 <= i <= |s| && OccursAt(s, i, find) {
      if i > 0 { assert OccursAt(s[1..], i - 1, find); }
    }
    if Occurs(s[1..], find) {
      var i :| 0 <= i <= |s[1..]| && OccursAt(s[1..], i, find);
      assert OccursAt(s, i + 1, find);
    }
  }

  /** A replacement by something shorter shows in the length. */
  lemma {:induction false} ReplaceShrinks(s: string, find: string, with: string)
    requires |with| < |find|
    ensures |ReplaceAll(s, find, with)| <= |s|
    ensures if Occurs(s, find) then |ReplaceAll(s, find, with)| < |s| else ReplaceAll(s, find, with) == s
    decreases |s|
  {
    hide Occurs;
    if |s| < |find| {
      assert !Occurs(s, find) by { NotLonger(s, find); }
    } else if s[..|find|] == find {
      ReplaceShrinks(s[|find|..], find, with);
      assert OccursAt(s, 0, find);
      OccursTail(s, find);
    } else {
      ReplaceShrinks(s[1..], find, with);
      OccursTail(s, find);
      assert s == [s[0]] + s[1..];
    }
  }

  lemma NotLonger(s: string, find: string)
    requires |s| < |find|
    ensures !Occurs(s, find)
  {}

  lemma {:induction false} FixMojibakeExact(text: string, pairs: seq<(string, string)>)
    requires Repairs(pairs)
    ensures |FixMojibake(text, pairs)| <= |text|
    ensures if Garbled(text, pairs) then |FixMojibake(text, pairs)| < |text| else FixMojibake(text, pairs) == text
    decreases |pairs|
  {
    if pairs == [] {
    } else {
      hide Occurs, ReplaceAll;
      var first, rest := pairs[0], pairs[1..];
      assert pairs == [first] + rest;
      assert Repairs(rest);
      ReplaceShrinks(text, first.0, first.1);
      FixMojibakeExact(ReplaceAll(text, first.0, first.1), rest);
      assert Garbled(text, pairs) <==> Occurs(text, first.0) || Garbled(text, rest);
    }
  }

  lemma MojibakeRepairs()
    ensures Repairs(MOJIBAKE)
  {}

  /** The repair leaves a text alone exactly when it is not garbled. */
  lemma FixMojibakeFixpoint(text: string)
    ensures FixMojibake(text) == text <==> !Garbled(text)
  {
    MojibakeRepairs();
    FixMojibakeExact(text, MOJIBAKE);
    hide FixMojibake, Garbled;
  }

  /** Each run of whitespace becomes one space. */
  function Collapse(s: string): string {
    if s == "" then ""
    else if IsSpace(s[0]) then
      if |s| > 1 && IsSpace(s[1]) then Collapse(s[1..]) else " " + Collapse(s[1..])
    else [s[0]] + Collapse(s[1..])
  }

  function Squeeze(s: string): string {
    Trim(Collapse(s), IsSpace)
  }

  function CleanText(v: Value): string {
    if !v.Truthy() then "" else Squeeze(FixMojibake(v.Text()))
  }

  /** Single interior spaces only: the normal form `clean_text` produces. */
  predicate Tidy(t: string) {
    forall i | 0 <= i < |t| && IsSpace(t[i]) ::
      t[i] == ' ' && 0 < i < |t| - 1 && !IsSpace(t[i + 1])
  }

  predicate SingleSpaced(t: string) {
    forall i | 0 <= i < |t| && IsSpace(t[i]) ::
      t[i] == ' ' && (i + 1 < |t| ==> !IsSpace(t[i + 1]))
  }

  lemma {:induction false} CollapseSingle(s: string)
    ensures SingleSpaced(Collapse(s))
    ensures s != "" ==> Collapse(s) != "" && IsSpace(Collapse(s)[0]) == IsSpace(s[0])
  {
    if s == "" {
    } else {
      CollapseSingle(s[1..]);
    }
  }

  lemma SingleSlice(t: string, lo: nat, hi: nat)
    requires lo <= hi <= |t| && SingleSpaced(t)
    ensures SingleSpaced(t[lo..hi])
  {
    forall i | 0 <= i < hi - lo && IsSpace(t[lo..hi][i])
      ensures t[lo..hi][i] == ' ' && (i + 1 < hi - lo ==> !IsSpace(t[lo..hi][i + 1]))
    {
      assert t[lo..hi][i] == t[lo + i];
    }
  }

  lemma TidyEnds(t: string)
    requires SingleSpaced(t) && (t != "" ==> !IsSpace(t[0]) && !IsSpace(t[|t| - 1]))
    ensures Tidy(t)
  {}

  lemma SqueezeTidy(s: string)
    ensures Tidy(Squeeze(s))
  {
    CollapseSingle(s);
    TrimTidy(Collapse(s));
    hide Tidy, SingleSpaced;
  }

  lemma TrimTidy(c: string)
    requires SingleSpaced(c)
    ensures Tidy(Trim(c, IsSpace))
  {
    hide SingleSpaced, Tidy, IsSpace, TrimLeft, TrimRight;
    var left := TrimLeft(c, IsSpace);
    var t := TrimRight(left, IsSpace);
    assert left == c[|c| - |left|..|c|];
    assert t == left[0..|t|];
    SingleSlice(c, |c| - |left|, |c|);
    SingleSlice(left, 0, |t|);
    assert t != "" ==> t[0] == left[0] && !IsSpace(left[0]) && !IsSpace(t[|t| - 1]);
    TidyEnds(t);
  }

  lemma CleanTextTidy(v: Value)
    ensures Tidy(CleanText(v))
  {
    if v.Truthy() { SqueezeTidy(FixMojibake(v.Text())); }
  }

  lemma {:induction false} CollapseTidy(t: string)
    requires SingleSpaced(t)
    ensures Collapse(t) == t
  {
    if t == "" {
    } else {
      assert forall i | 0 <= i < |t| - 1 :: t[1..][i] == t[i + 1];
      CollapseTidy(t[1..]);
      assert t == [t[0]] + t[1..];
    }
  }

  lemma TidySpaced(t: string)
    requires Tidy(t)
    ensures SingleSpaced(t) && (t != "" ==> !IsSpace(t[0]) && !IsSpace(t[|t| - 1]))
  {}

  // ----- cleaning keeps the words -----

  /** The maximal runs of characters that are not whitespace, in order: `s.split()`. */
  function Words(s: string): (words: seq<string>)
    ensures s != "" && !IsSpace(s[0]) ==> words != []
  {
    if s == "" then []
    else if IsSpace(s[0]) then Words(s[1..])
    else
      var rest := Words(s[1..]);
      if |s| > 1 && !IsSpace(s[1]) then [[s[0]] + rest[0]] + rest[1..] else [[s[0]]] + rest
  }

  predicate IsWord(word: string) {
    word != "" && forall i | 0 <= i < |word| :: !IsSpace(word[i])
  }

  lemma {:induction false} WordsAreWords(s: string)
    ensures forall word | word in Words(s) :: IsWord(word)
  {
    if s == "" {
    } else {
      WordsAreWords(s[1..]);
      var rest := Words(s[1..]);
      if !IsSpace(s[0]) && |s| > 1 && !IsSpace(s[1]) { assert rest[0] in rest; }
    }
  }

  /** Collapsing whitespace leaves the words alone. */
  lemma {:induction false} CollapseWords(s: string)
    ensures Words(Collapse(s)) == Words(s)
  {
    if s == "" {
    } else {
      CollapseWords(s[1..]);
      CollapseSingle(s[1..]);
      var rest := Collapse(s[1..]);
      assert (" " + rest)[1..] == rest && ([s[0]] + rest)[1..] == rest;
    }
  }

  lemma {:induction false} TrimLeftWords(s: string)
    ensures Words(TrimLeft(s, IsSpace)) == Words(s)
  {
    if s == "" {
    } else if IsSpace(s[0]) {
      TrimLeftWords(s[1..]);
    }
  }

  lemma {:induction false} DropLastSpace(s: string)
    requires s != "" && IsSpace(s[|s| - 1])
    ensures Words(s[..|s| - 1]) == Words(s)
  {
    if |s| == 1 {
      assert s[..0] == "" && s[1..] == "";
    } else {
      DropLastSpace(s[1..]);
      var front := s[..|s| - 1];
      assert front[1..] == s[1..][..|s| - 2];
    }
  }

  lemma {:induction false} TrimRightWords(s: string)
    ensures Words(TrimRight(s, IsSpace)) == Words(s)
  {
    if s == "" {
    } else if IsSpace(s[|s| - 1]) {
      TrimRightWords(s[..|s| - 1]);
      DropLastSpace(s);
    }
  }

  lemma OneWord(word: string)
    requires IsWord(word)
    ensures Words(word) == [word]
  {
    if |word| == 1 {
      assert word == [word[0]];
    } else {
      assert forall i | 0 <= i < |word| - 1 :: word[1..][i] == word[i + 1];
      OneWord(word[1..]);
      assert word == [word[0]] + word[1..];
    }
  }

  /** In a tidy text the words are the pieces between the spaces. */
  lemma {:induction false} TidyWords(t: string)
    requires Tidy(t)
    ensures Join(Words(t), " ") == t
    decreases |t|
  {
    if t == "" {
    } else {
      TidyTail(t);
      WordsStep(t);
      hide Tidy;
      if |t| == 1 {
        assert t == [t[0]];
      } else if t[1] == ' ' {
        TidyWords(t[2..]);
        assert t == [t[0]] + " " + t[2..];
      } else {
        TidyWords(t[1..]);
        JoinHead(t[0], Words(t[1..]));
        assert t == [t[0]] + t[1..];
      }
    }
  }

  lemma JoinHead(c: char, words: seq<string>)
    requires words != []
    ensures Join([[c] + words[0]] + words[1..], " ") == [c] + Join(words, " ")
  {
    var more := [[c] + words[0]] + words[1..];
    assert more[1..] == words[1..];
    if |words| > 1 {
      assert [c] + (words[0] + " " + Join(words[1..], " ")) == [c] + words[0] + " " + Join(words[1..], " ");
    }
  }

  lemma TidyTail(t: string)
    requires Tidy(t) && t != ""
    ensures !IsSpace(t[0])
    ensures |t| > 1 && IsSpace(t[1]) ==> t[1] == ' ' && |t| > 2 && !IsSpace(t[2]) && Tidy(t[2..])
    ensures |t| > 1 && !IsSpace(t[1]) ==> Tidy(t[1..])
  {
    assert IsSpace(' ');
    if |t| > 1 && IsSpace(t[1]) {
      assert forall i | 0 <= i < |t| - 2 :: t[2..][i] == t[i + 2];
    } else if |t| > 1 {
      assert forall i | 0 <= i < |t| - 1 :: t[1..][i] == t[i + 1];
    }
  }

  lemma WordsStep(t: string)
    requires t != "" && !IsSpace(t[0])
    ensures |t| == 1 ==> Words(t) == [[t[0]]]
    ensures |t| > 1 && !IsSpace(t[1]) ==>
      Words(t[1..]) != [] && Words(t) == [[t[0]] + Words(t[1..])[0]] + Words(t[1..])[1..]
    ensures |t| > 2 && IsSpace(t[1]) && !IsSpace(t[2]) ==> Words(t[2..]) != [] && Words(t) == [[t[0]]] + Words(t[2..])
  {
    if |t| == 1 { assert t[1..] == ""; }
    if |t| > 2 { assert t[1..][1..] == t[2..]; }
  }

  /** Cleaning keeps exactly the words of the text, in order, with one space between two of them. */
  lemma SqueezeWords(s: string)
    ensures Squeeze(s) == Join(Words(s), " ")
  {
    var c := Collapse(s);
    CollapseWords(s);
    TrimLeftWords(c);
    TrimRightWords(TrimLeft(c, IsSpace));
    SqueezeTidy(s);
    TidyWords(Squeeze(s));
    hide Words, Collapse, Join, TrimLeft, TrimRight, Tidy;
  }

  /** `clean_text`: the words of the repaired text, single-spaced. */
  lemma CleanTextWords(v: Value)
    ensures CleanText(v) ==
      if v == Null || v == Str("") || v == Num(0) then "" else Join(Words(FixMojibake(v.Text())), " ")
  {
    if v.Truthy() { SqueezeWords(FixMojibake(v.Text())); }
    hide FixMojibake, Squeeze, Words;
  }

  lemma {:induction false} CollapseShorter(s: string)
    ensures |Collapse(s)| <= |s|
  {
    if s == "" {
    } else {
      CollapseShorter(s[1..]);
    }
  }

  lemma SqueezeFixpoint(t: string)
    requires Tidy(t)
    ensures Squeeze(t) == t
  {
    TidySpaced(t);
    hide Tidy, SingleSpaced, Collapse, Trim;
    CollapseTidy(t);
    TrimNothing(t);
  }

  lemma SqueezeShorter(s: string)
    ensures |Squeeze(s)| <= |s|
  {
    CollapseShorter(s);
    hide Collapse;
  }

  lemma CleanTextShrinks(t: string)
    requires Garbled(t)
    ensures |CleanText(Str(t))| < |t|
  {
    hide FixMojibake, Squeeze, Garbled, MOJIBAKE;
    MojibakeRepairs();
    FixMojibakeExact(t, MOJIBAKE);
    SqueezeShorter(FixMojibake(t));
  }

  /** A second `clean_text` changes nothing exactly when the first left no mis-decoded sequence. */
  lemma CleanTextFixpoint(t: string)
    requires Tidy(t)
    ensures CleanText(Str(t)) == t <==> !Garbled(t)
  {
    hide Garbled, FixMojibake, Squeeze, Tidy;
    if Garbled(t) {
      CleanTextShrinks(t);
    } else {
      FixMojibakeFixpoint(t);
      SqueezeFixpoint(t);
    }
  }

  lemma LowerTidy(a: string, b: string)
    requires Lower(a) == Lower(b)
    ensures |a| == |b| && (Tidy(a) ==> Tidy(b))
  {
    assert |a| == |Lower(a)| && |b| == |Lower(b)|;
    forall i | 0 <= i < |a|
      ensures IsSpace(a[i]) == IsSpace(b[i]) && (IsSpace(a[i]) ==> a[i] == b[i])
    {
      assert LowerChar(a[i]) == Lower(a)[i] == Lower(b)[i] == LowerChar(b[i]);
    }
  }

  // ----- sentence_case -----

  type Acronyms = keep: set<string> | "" !in keep witness {}

  predicate IsName(name: string) {
    name != "" && forall c | c in name :: IsAsciiLower(c)
  }

  type Name = name: string | IsName(name) witness "moi"

  /** The two word lists that steer the rendering. */
  datatype Style = Style(keep: Acronyms, names: seq<Name>)

  const KEEP_UPPER: Acronyms :=
    {"KNA", "KDF", "NGO", "NGOs", "TV", "UK", "USA", "UN", "GSU", "OCS", "MP", "PC", "DC"}

  const PROPER_NAMES: seq<Name> := [
    "kenyatta", "moi", "kenya", "nairobi", "mombasa", "kisumu", "nakuru",
    "mzee", "jomo", "daniel", "mboya", "ngala", "uhuru"
  ]

  const ARCHIVE_STYLE: Style := Style(KEEP_UPPER, PROPER_NAMES)

  function CountUpper(s: string): nat {
    if s == "" then 0 else (if IsUpper(s[0]) then 1 else 0) + CountUpper(s[1..])
  }

  function CountLetters(s: string): nat {
    if s == "" then 0 else (if IsLetter(s[0]) then 1 else 0) + CountLetters(s[1..])
  }

  /** Fewer than four letters in five are capitals (`0.8` rounds the same way as the quotient 4/5). */
  predicate MixedCase(text: string) {
    CountLetters(text) > 0 && 5 * CountUpper(text) < 4 * CountLetters(text)
  }

  predicate IsEdge(c: char) { c == '.' || c == ',' || c == '(' || c == ')' }

  predicate EndsSentence(word: string) {
    word != "" && (var c := word[|word| - 1]; c == '.' || c == '!' || c == '?')
  }

  predicate IsKept(keep: Acronyms, word: string) {
    Trim(Upper(word), IsEdge) in keep
  }

  lemma {:induction false} TrimLeftUpper(s: string)
    ensures TrimLeft(Upper(s), IsEdge) == Upper(TrimLeft(s, IsEdge))
  {
    if s == "" {
    } else {
      assert Upper(s)[0] == UpperChar(s[0]) && IsEdge(UpperChar(s[0])) == IsEdge(s[0]);
      assert Upper(s)[1..] == Upper(s[1..]);
      hide Upper;
      TrimLeftUpper(s[1..]);
    }
  }

  lemma {:induction false} TrimRightUpper(s: string)
    ensures TrimRight(Upper(s), IsEdge) == Upper(TrimRight(s, IsEdge))
  {
    if s == "" {
    } else {
      var n := |s| - 1;
      assert |Upper(s)| == n + 1 && Upper(s)[n] == UpperChar(s[n]) && IsEdge(UpperChar(s[n])) == IsEdge(s[n]);
      assert Upper(s)[..n] == Upper(s[..n]);
      hide Upper;
      TrimRightUpper(s[..n]);
    }
  }

  lemma TrimMember(s: string, drop: char -> bool, c: char)
    requires c in Trim(s, drop)
    ensures c in s
  {
    var left := TrimLeft(s, drop);
    assert c in left;
  }

  /** Words are upper-cased before the lookup, so the entry "NGOs" never matches. */
  lemma PluralNeverKept(word: string)
    ensures Trim(Upper(word), IsEdge) != "NGOs"
  {
    UpperHasNo(word);
    hide Trim, Upper;
    if Trim(Upper(word), IsEdge) == "NGOs" {
      assert 's' in Trim(Upper(word), IsEdge);
      TrimMember(Upper(word), IsEdge, 's');
      assert false;
    }
  }

  lemma UpperHasNo(word: string)
    ensures 's' !in Upper(word)
  {}

  lemma TrimUpper(s: string)
    ensures Trim(Upper(s), IsEdge) == Upper(Trim(s, IsEdge))
  {
    TrimLeftUpper(s);
    TrimRightUpper(TrimLeft(s, IsEdge));
  }

  function CapitalizeFirst(word: string): string {
    if word == "" then "" else [UpperChar(word[0])] + word[1..]
  }

  /** One pass of the word loop: an acronym keeps its capitals, a sentence start gets one. */
  function CaseWord(keep: Acronyms, word: string, capitalizeNext: bool): string {
    var original := Trim(Upper(word), IsEdge);
    if original in keep then
      TrimUpper(word);
      ReplaceAll(word, Trim(word, IsEdge), original)
    else if capitalizeNext then CapitalizeFirst(word)
    else word
  }

  function CaseWords(keep: Acronyms, words: seq<string>, capitalizeNext: bool): (out: seq<string>)
    ensures |out| == |words|
  {
    if words == [] then []
    else
      var word := CaseWord(keep, words[0], capitalizeNext);
      [word] + CaseWords(keep, words[1..], !IsKept(keep, words[0]) && EndsSentence(word))
  }

  /** `\w`, which takes the Latin-1 superscripts and fractions for digits. */
  predicate IsWordChar(c: char) {
    || IsLetter(c) || IsDigit(c) || c == '_'
    || c == '\U{B2}' || c == '\U{B3}' || c == '\U{B9}' || '\U{BC}' <= c <= '\U{BE}'
  }

  /** `\bname\b` matches at position i. */
  predicate MatchesWord(s: string, i: nat, name: string) {
    && i + |name| <= |s|
    && (forall k | 0 <= k < |name| :: s[i + k] == name[k])
    && (i == 0 || !IsWordChar(s[i - 1]))
    && (i + |name| == |s| || !IsWordChar(s[i + |name|]))
  }

  /** `re.sub(r"\bname\b", name.capitalize(), s)` from position i on. */
  function RestoreName(s: string, i: nat, name: Name): string
    requires i <= |s|
    decreases |s| - i
  {
    if i == |s| then ""
    else if MatchesWord(s, i, name) then CapitalizeFirst(name) + RestoreName(s, i + |name|, name)
    else [s[i]] + RestoreName(s, i + 1, name)
  }

  function RestoreNames(s: string, names: seq<Name>): string
    decreases |names|
  {
    if names == [] then s else RestoreNames(RestoreName(s, 0, names[0]), names[1..])
  }

  function Restyle(style: Style, lowered: string): string {
    RestoreNames(Join(CaseWords(style.keep, Split(lowered, ' '), true), " "), style.names)
  }

  function SentenceText(style: Style, text: string): string {
    if text == "" then ""
    else if MixedCase(text) then text
    else Restyle(style, Lower(text))
  }

  function SentenceCase(v: Value): string {
    SentenceText(ARCHIVE_STYLE, CleanText(v))
  }

  // Only letter case changes.

  lemma UpperEmpty()
    ensures Upper("") == ""
  {}

  lemma CapitalizeFirstLower(word: string)
    ensures Lower(CapitalizeFirst(word)) == Lower(word)
  {}

  lemma CaseWordLower(keep: Acronyms, word: string, capitalizeNext: bool)
    ensures Lower(CaseWord(keep, word, capitalizeNext)) == Lower(word)
  {
    hide Lower, Upper, Trim, ReplaceAll;
    if IsKept(keep, word) {
      TrimUpper(word);
      UpperEmpty();
      LowerUpper(Trim(word, IsEdge));
      ReplaceAllLower(word, Trim(word, IsEdge), Trim(Upper(word), IsEdge));
    } else {
      CapitalizeFirstLower(word);
    }
  }

  lemma {:induction false} CaseWordsLower(keep: Acronyms, words: seq<string>, capitalizeNext: bool)
    ensures forall i | 0 <= i < |words| ::
      Lower(CaseWords(keep, words, capitalizeNext)[i]) == Lower(words[i])
  {
    if words == [] {
    } else {
      CaseWordLower(keep, words[0], capitalizeNext);
      var word := CaseWord(keep, words[0], capitalizeNext);
      CaseWordsLower(keep, words[1..], !IsKept(keep, words[0]) && EndsSentence(word));
    }
  }

  lemma NoMatchInside(s: string, i: nat, name: Name, j: nat)
    requires MatchesWord(s, i, name) && i < j < i + |name|
    ensures s[j] == name[j - i] && !MatchesWord(s, j, name)
  {
    assert s[i + (j - i)] == name[j - i];
    assert s[i + (j - 1 - i)] == name[j - 1 - i];
    assert name[j - 1 - i] in name;
  }

  function RestoredChar(s: string, j: nat, name: Name): char
    requires j < |s|
  {
    if MatchesWord(s, j, name) then UpperChar(s[j]) else s[j]
  }

  /** A matched name: its first letter is raised, the others stay. */
  lemma RestoredMatch(s: string, i: nat, name: Name, j: nat)
    requires MatchesWord(s, i, name) && i <= j < i + |name|
    ensures CapitalizeFirst(name)[j - i] == RestoredChar(s, j, name)
  {
    hide IsName, UpperChar, IsWordChar;
    assert s[i + (j - i)] == name[j - i];
    assert i == j ==> MatchesWord(s, j, name);
    if j > i { NoMatchInside(s, i, name, j); }
    hide MatchesWord;
  }

  predicate Restored(out: string, s: string, i: nat, name: Name)
    requires i <= |s|
  {
    |out| == |s| - i && forall k | 0 <= k < |out| :: out[k] == RestoredChar(s, i + k, name)
  }

  lemma RestoredAppend(head: string, rest: string, s: string, i: nat, name: Name)
    requires i + |head| <= |s| && Restored(rest, s, i + |head|, name)
    requires forall k | 0 <= k < |head| :: head[k] == RestoredChar(s, i + k, name)
    ensures Restored(head + rest, s, i, name)
  {
    hide RestoredChar;
    forall k | 0 <= k < |head + rest|
      ensures (head + rest)[k] == RestoredChar(s, i + k, name)
    {
      if k >= |head| { assert (head + rest)[k] == rest[k - |head|]; }
    }
  }

  lemma RestoredName(s: string, i: nat, name: Name)
    requires MatchesWord(s, i, name) && Restored(RestoreName(s, i + |name|, name), s, i + |name|, name)
    ensures Restored(RestoreName(s, i, name), s, i, name)
  {
    var head, rest := CapitalizeFirst(name), RestoreName(s, i + |name|, name);
    assert RestoreName(s, i, name) == head + rest;
    hide RestoreName;
    forall k | 0 <= k < |head|
      ensures head[k] == RestoredChar(s, i + k, name)
    {
      RestoredMatch(s, i, name, i + k);
    }
    hide MatchesWord, RestoredChar;
    RestoredAppend(head, rest, s, i, name);
  }

  lemma RestoredLetter(s: string, i: nat, name: Name)
    requires i < |s| && !MatchesWord(s, i, name) && Restored(RestoreName(s, i + 1, name), s, i + 1, name)
    ensures Restored(RestoreName(s, i, name), s, i, name)
  {
    var rest := RestoreName(s, i + 1, name);
    assert RestoreName(s, i, name) == [s[i]] + rest;
    hide RestoreName, MatchesWord;
    RestoredAppend([s[i]], rest, s, i, name);
  }

  /** The substitution changes exactly the first letter of each match. */
  lemma {:induction false} RestoreNameAt(s: string, i: nat, name: Name)
    requires i <= |s|
    ensures Restored(RestoreName(s, i, name), s, i, name)
    decreases |s| - i
  {
    if i == |s| {
    } else if MatchesWord(s, i, name) {
      hide Restored;
      RestoreNameAt(s, i + |name|, name);
      RestoredName(s, i, name);
    } else {
      hide Restored, MatchesWord;
      RestoreNameAt(s, i + 1, name);
      RestoredLetter(s, i, name);
    }
  }

  lemma RestoreNameAll(s: string, name: Name)
    ensures |RestoreName(s, 0, name)| == |s|
    ensures forall j | 0 <= j < |s| :: RestoreName(s, 0, name)[j] == RestoredChar(s, j, name)
  {
    hide RestoreName, RestoredChar;
    RestoreNameAt(s, 0, name);
    forall j | 0 <= j < |s|
      ensures RestoreName(s, 0, name)[j] == RestoredChar(s, j, name)
    {
      assert j == 0 + j;
    }
  }

  lemma RestoreNameLower(s: string, name: Name)
    ensures Lower(RestoreName(s, 0, name)) == Lower(s)
  {
    RestoreNameAll(s, name);
  }

  lemma {:induction false} RestoreNamesLower(s: string, names: seq<Name>)
    ensures Lower(RestoreNames(s, names)) == Lower(s)
    decreases |names|
  {
    if names == [] {
    } else {
      RestoreNameLower(s, names[0]);
      RestoreNamesLower(RestoreName(s, 0, names[0]), names[1..]);
    }
  }

  lemma RestyleLower(style: Style, lowered: string)
    ensures Lower(Restyle(style, lowered)) == Lower(lowered)
  {
    var words := Split(lowered, ' ');
    CaseWordsLower(style.keep, words, true);
    JoinLower(CaseWords(style.keep, words, true), words, " ");
    JoinSplit(lowered, ' ');
    RestoreNamesLower(Join(CaseWords(style.keep, words, true), " "), style.names);
  }

  lemma SentenceTextLower(style: Style, text: string)
    ensures Lower(SentenceText(style, text)) == Lower(text)
  {
    if text != "" && !MixedCase(text) {
      RestyleLower(style, Lower(text));
      LowerUpper(text);
    }
  }

  /** `sentence_case` changes letter case and nothing else. */
  lemma SentenceCaseOnlyCase(v: Value)
    requires AllModelled(v.Text())
    ensures Lower(SentenceCase(v)) == Lower(CleanText(v))
  {
    SentenceTextLower(ARCHIVE_STYLE, CleanText(v));
  }

  // What the restyled text looks like, word by word.

  lemma {:induction false} ReplaceCore(pre: string, core: string, post: string, with: string)
    requires core != "" && core[0] !in pre && core[0] !in post
    ensures ReplaceAll(pre + core + post, core, with) == pre + with + post
    decreases |pre|
  {
    var s := pre + core + post;
    if pre == "" {
      assert s[..|core|] == core && s[|core|..] == post;
      ReplaceAllAbsent(post, core, with);
    } else {
      assert s[..|core|][0] == pre[0];
      assert s[1..] == pre[1..] + core + post;
      ReplaceCore(pre[1..], core, post, with);
      assert pre + with + post == [pre[0]] + (pre[1..] + with + post);
    }
  }

  predicate AllEdges(s: string) { forall i | 0 <= i < |s| :: IsEdge(s[i]) }

  lemma TrimParts(word: string) returns (pre: string, post: string)
    ensures word == pre + Trim(word, IsEdge) + post
    ensures AllEdges(pre) && AllEdges(post)
    ensures Trim(word, IsEdge) != "" ==> !IsEdge(Trim(word, IsEdge)[0])
  {
    hide IsEdge, TrimLeft, TrimRight;
    var left := TrimLeft(word, IsEdge);
    var core := TrimRight(left, IsEdge);
    pre := word[..|word| - |left|];
    post := left[|core|..];
    assert left == core + post && word == pre + left;
    assert core != "" ==> core[0] == left[0];
  }

  lemma UpperEdges(s: string)
    requires AllEdges(s)
    ensures Upper(s) == s
  {}

  lemma UpperConcat(a: string, b: string)
    ensures Upper(a + b) == Upper(a) + Upper(b)
  {}

  lemma KeptWordUpper(keep: Acronyms, word: string, capitalizeNext: bool)
    requires IsKept(keep, word)
    ensures CaseWord(keep, word, capitalizeNext) == Upper(word)
  {
    TrimUpper(word);
    var pre, post := TrimParts(word);
    var core := Trim(word, IsEdge);
    ReplaceCore(pre, core, post, Upper(core));
    UpperEdges(pre);
    UpperEdges(post);
    UpperConcat(pre + core, post);
    UpperConcat(pre, core);
  }

  predicate StartsSentence(keep: Acronyms, words: seq<string>, i: nat, first: bool)
    requires i < |words|
  {
    if i == 0 then first else !IsKept(keep, words[i - 1]) && EndsSentence(words[i - 1])
  }

  lemma CaseWordEnds(keep: Acronyms, word: string, capitalizeNext: bool)
    requires !IsKept(keep, word)
    ensures EndsSentence(CaseWord(keep, word, capitalizeNext)) == EndsSentence(word)
  {
    hide ReplaceAll, Trim, Upper;
    if word != "" {
      var cased := CapitalizeFirst(word);
      assert |cased| == |word| && (|word| > 1 ==> cased[|word| - 1] == word[|word| - 1]);
      assert |word| == 1 ==> cased[0] == UpperChar(word[0]);
    }
  }

  lemma StartsTail(keep: Acronyms, words: seq<string>, first: bool, i: nat)
    requires 0 < i < |words|
    ensures StartsSentence(keep, words, i, first) ==
      StartsSentence(keep, words[1..], i - 1, StartsSentence(keep, words, 1, first))
  {
    hide IsKept, EndsSentence;
    if i > 1 { assert words[1..][i - 2] == words[i - 1]; }
  }

  lemma CaseWordsNext(keep: Acronyms, words: seq<string>, first: bool)
    requires |words| > 1
    ensures CaseWords(keep, words, first) ==
      [CaseWord(keep, words[0], first)] + CaseWords(keep, words[1..], StartsSentence(keep, words, 1, first))
  {
    if !IsKept(keep, words[0]) { CaseWordEnds(keep, words[0], first); }
    hide IsKept, EndsSentence, CaseWord;
  }

  /** The flag the loop carries depends only on the word before. */
  lemma {:induction false} CaseWordsStep(keep: Acronyms, words: seq<string>, first: bool, i: nat)
    requires i < |words|
    ensures CaseWords(keep, words, first)[i] == CaseWord(keep, words[i], StartsSentence(keep, words, i, first))
  {
    if i > 0 {
      hide CaseWord, StartsSentence, CaseWords;
      CaseWordsNext(keep, words, first);
      CaseWordsStep(keep, words[1..], StartsSentence(keep, words, 1, first), i - 1);
      StartsTail(keep, words, first, i);
    } else {
      hide CaseWord;
    }
  }

  /** Every word of the output: an acronym in capitals, a sentence start, or the word as it was. */
  lemma CaseWordsAt(keep: Acronyms, words: seq<string>, first: bool, i: nat)
    requires i < |words|
    ensures CaseWords(keep, words, first)[i] ==
      if IsKept(keep, words[i]) then Upper(words[i])
      else if StartsSentence(keep, words, i, first) then CapitalizeFirst(words[i])
      else words[i]
  {
    CaseWordsStep(keep, words, first, i);
    if IsKept(keep, words[i]) {
      KeptWordUpper(keep, words[i], StartsSentence(keep, words, i, first));
    }
  }

  /** A restoration leaves every lower-case stretch of its result as it was. */
  lemma LowerStretchUnchanged(s: string, other: Name, k: nat)
    requires k < |s| && |RestoreName(s, 0, other)| == |s| && IsLower(RestoreName(s, 0, other)[k])
    ensures RestoreName(s, 0, other)[k] == s[k] && !MatchesWord(s, k, other)
  {
    RestoreNameAll(s, other);
    assert UpperChar(other[0]) != other[0] by { assert other[0] in other; }
  }

  lemma NameLetter(name: Name, k: nat)
    requires k < |name|
    ensures IsLower(name[k]) && IsAsciiLower(name[k])
  {
    assert name[k] in name;
  }

  lemma NoMatchAppears(s: string, name: Name, other: Name, j: nat)
    requires MatchesWord(RestoreName(s, 0, other), j, name)
    ensures MatchesWord(s, j, name) && name != other
  {
    assert |name| > 0;
    hide RestoreName, RestoredChar, IsLower, IsWordChar, IsName;
    var r := RestoreName(s, 0, other);
    SameBoundary(s, other, 0, 0);
    SameBoundary(s, other, j, j + |name|);
    forall k | 0 <= k < |name|
      ensures s[j + k] == name[k] && !MatchesWord(s, j + k, other)
    {
      assert r[j + k] == name[k];
      NameLetter(name, k);
      LowerStretchUnchanged(s, other, j + k);
    }
    NameLetter(name, 0);
    assert r[j + 0] == name[0];
    LowerStretchUnchanged(s, other, j);
  }

  /** Word boundaries survive a restoration. */
  lemma SameBoundary(s: string, other: Name, i: nat, j: nat)
    requires i <= |s| && j <= |s|
    ensures var r := RestoreName(s, 0, other);
      && |r| == |s|
      && (i > 0 ==> IsWordChar(r[i - 1]) == IsWordChar(s[i - 1]))
      && (j < |s| ==> IsWordChar(r[j]) == IsWordChar(s[j]))
  {
    RestoreNameAll(s, other);
    hide RestoreName, MatchesWord;
  }

  lemma {:induction false} NamesStayRestored(s: string, name: Name, names: seq<Name>)
    requires name in names || forall j: nat :: !MatchesWord(s, j, name)
    ensures forall j: nat :: !MatchesWord(RestoreNames(s, names), j, name)
    decreases |names|
  {
    if names == [] {
    } else {
      var r := RestoreName(s, 0, names[0]);
      forall j: nat | MatchesWord(r, j, name)
        ensures name != names[0] && MatchesWord(s, j, name)
      {
        NoMatchAppears(s, name, names[0], j);
      }
      assert name in names ==> name == names[0] || name in names[1..];
      NamesStayRestored(RestoreName(s, 0, names[0]), name, names[1..]);
    }
  }

  /** No well-known name is left in lower case as a whole word of a restyled text. */
  lemma ProperNamesRestored(style: Style, lowered: string, name: Name)
    requires name in style.names
    ensures forall j: nat :: !MatchesWord(Restyle(style, lowered), j, name)
  {
    NamesStayRestored(Join(CaseWords(style.keep, Split(lowered, ' '), true), " "), name, style.names);
  }

  /** One turn of the loop. */
  method ComputeCaseWord(keep: Acronyms, word: string, capitalizeNext: bool)
    returns (cased: string, next: bool)
    ensures cased == CaseWord(keep, word, capitalizeNext)
    ensures next == (!IsKept(keep, word) && EndsSentence(word))
  {
    var original := Trim(Upper(word), IsEdge);
    if original in keep {
      TrimUpper(word);
      return ReplaceAll(word, Trim(word, IsEdge), original), false;
    }
    cased := word;
    if capitalizeNext && word != "" {
      cased := [UpperChar(word[0])] + word[1..];
    }
    CaseWordEnds(keep, word, capitalizeNext);
    next := EndsSentence(cased);
  }

  lemma CaseWordsTail(keep: Acronyms, words: seq<string>, i: nat, flag: bool, out: seq<string>)
    requires i < |words|
    ensures out + CaseWords(keep, words[i..], flag) ==
      out + [CaseWord(keep, words[i], flag)] +
      CaseWords(keep, words[i + 1..], !IsKept(keep, words[i]) && EndsSentence(words[i]))
  {
    var next := !IsKept(keep, words[i]) && EndsSentence(CaseWord(keep, words[i], flag));
    assert next == (!IsKept(keep, words[i]) && EndsSentence(words[i])) by {
      if !IsKept(keep, words[i]) { CaseWordEnds(keep, words[i], flag); }
    }
    CaseWordsCons(keep, words[i..], flag, next);
    assert words[i..][1..] == words[i + 1..];
    Associate(out, [CaseWord(keep, words[i], flag)], CaseWords(keep, words[i + 1..], next));
  }

  lemma CaseWordsCons(keep: Acronyms, words: seq<string>, flag: bool, next: bool)
    requires words != [] && next == (!IsKept(keep, words[0]) && EndsSentence(CaseWord(keep, words[0], flag)))
    ensures CaseWords(keep, words, flag) == [CaseWord(keep, words[0], flag)] + CaseWords(keep, words[1..], next)
  {}

  /** The word loop of `sentence_case`. */
  method ComputeCaseWords(keep: Acronyms, words: seq<string>) returns (out: seq<string>)
    ensures out == CaseWords(keep, words, true)
  {
    out := [];
    var capitalizeNext := true;
    var i := 0;
    assert words[0..] == words;
    while i < |words|
      invariant i <= |words|
      invariant out + CaseWords(keep, words[i..], capitalizeNext) == CaseWords(keep, words, true)
    {
      var word, next := ComputeCaseWord(keep, words[i], capitalizeNext);
      CaseWordsTail(keep, words, i, capitalizeNext, out);
      out, capitalizeNext := out + [word], next;
      i := i + 1;
    }
    assert words[i..] == [];
  }

  /** `sentence_case` after its `clean_text` call: early returns, word loop, name loop. */
  method ComputeSentenceText(style: Style, text: string) returns (result: string)
    ensures result == SentenceText(style, text)
  {
    if text == "" {
      return "";
    }
    if MixedCase(text) {
      return text;
    }
    var out := ComputeCaseWords(style.keep, Split(Lower(text), ' '));
    result := Join(out, " ");
    for i := 0 to |style.names|
      invariant RestoreNames(result, style.names[i..]) == Restyle(style, Lower(text))
    {
      assert style.names[i..][1..] == style.names[i + 1..];
      result := RestoreName(result, 0, style.names[i]);
    }
  }

  // ----- title_case_location, normalize_country -----

  /** `str.title()`: a letter is upper case exactly when no letter stands before it. */
  function TitleCase(s: string, afterLetter: bool := false): string {
    if s == "" then ""
    else
      [if afterLetter then LowerChar(s[0]) else UpperChar(s[0])] + TitleCase(s[1..], IsLetter(s[0]))
  }

  /** Title case changes letter case only, and once. */
  lemma {:induction false} TitleCaseOnlyCase(s: string, afterLetter: bool)
    requires AllModelled(s)
    ensures Lower(TitleCase(s, afterLetter)) == Lower(s)
    ensures TitleCase(TitleCase(s, afterLetter), afterLetter) == TitleCase(s, afterLetter)
  {
    if s == "" {
    } else {
      TitleCaseOnlyCase(s[1..], IsLetter(s[0]));
      var c := if afterLetter then LowerChar(s[0]) else UpperChar(s[0]);
      var rest := TitleCase(s[1..], IsLetter(s[0]));
      assert TitleCase(s, afterLetter) == [c] + rest && ([c] + rest)[1..] == rest;
      assert s == [s[0]] + s[1..];
      LowerConcat([c], rest);
      LowerConcat([s[0]], s[1..]);
      assert Lower([c]) == Lower([s[0]]);
    }
  }

  function TitleCaseLocation(v: Value): string {
    TitleCase(CleanText(v))
  }

  const COUNTRY_MAP := map["KEN" := "Kenya", "UGA" := "Uganda", "TZA" := "Tanzania"]

  function NormalizeCountry(v: Value): string {
    var iso := Upper(CleanText(v));
    if iso in COUNTRY_MAP then COUNTRY_MAP[iso] else "Kenya"
  }

  // ----- parse_tags -----

  const TAG_LIMIT: nat := 50

  /** A print reference such as "1398/254". */
  predicate IsRefno(t: string) {
    exists k | 1 <= k <= 5 ::
      && k + 1 < |t| <= k + 6
      && (t[k] == '/' || t[k] == '_' || t[k] == '-')
      && AllDigits(t[..k]) && AllDigits(t[k + 1..])
  }

  predicate IsSpaceOrDot(c: char) { c == ' ' || c == '.' }

  /** The tag one segment of the keyword line yields, if any. */
  function TagOf(segment: string): (tag: Option<string>)
    ensures tag.Some? ==> 2 <= |tag.value| <= TAG_LIMIT
  {
    var tag := Lower(Trim(Collapse(segment), IsSpaceOrDot));
    if tag == "" || IsRefno(tag) || |tag| < 2 then None else Some(Prefix(tag, TAG_LIMIT))
  }

  lemma TrimmedSegment(segment: string)
    ensures var t := Trim(Collapse(segment), IsSpaceOrDot);
      SingleSpaced(t) && (t != "" ==> !IsSpaceOrDot(t[0]) && !IsSpaceOrDot(t[|t| - 1]))
  {
    var c := Collapse(segment);
    CollapseSingle(segment);
    hide SingleSpaced, Collapse, IsSpaceOrDot, TrimLeft, TrimRight;
    var left := TrimLeft(c, IsSpaceOrDot);
    var t := TrimRight(left, IsSpaceOrDot);
    assert left == c[|c| - |left|..|c|];
    assert t == left[0..|t|];
    SingleSlice(c, |c| - |left|, |c|);
    SingleSlice(left, 0, |t|);
    assert t != "" ==> t[0] == left[0];
  }

  lemma CutTag(tag: string)
    requires SingleSpaced(tag) && Lower(tag) == tag && |tag| > TAG_LIMIT
    ensures SingleSpaced(Prefix(tag, TAG_LIMIT)) && Lower(Prefix(tag, TAG_LIMIT)) == Prefix(tag, TAG_LIMIT)
  {
    assert tag[0..TAG_LIMIT] == tag[..TAG_LIMIT];
    SingleSlice(tag, 0, TAG_LIMIT);
    LowerConcat(tag[..TAG_LIMIT], tag[TAG_LIMIT..]);
    assert tag == tag[..TAG_LIMIT] + tag[TAG_LIMIT..];
    hide SingleSpaced;
  }

  /** The limit cuts the tag of this segment. */
  predicate IsCut(segment: string) {
    |Trim(Collapse(segment), IsSpaceOrDot)| > TAG_LIMIT
  }

  /** A tag is in lower case with single spaces; unless it was cut, its ends are clean and it is no reference. */
  lemma TagOfNormal(segment: string)
    ensures var tag := TagOf(segment);
      tag.Some? ==>
        && Lower(tag.value) == tag.value
        && SingleSpaced(tag.value)
        && !IsSpaceOrDot(tag.value[0])
        && (IsCut(segment) ==> |tag.value| == TAG_LIMIT)
        && (!IsCut(segment) ==> !IsRefno(tag.value) && !IsSpaceOrDot(tag.value[|tag.value| - 1]))
  {
    hide Trim, Collapse, IsRefno, SingleSpaced, Lower, IsSpaceOrDot;
    var t := Trim(Collapse(segment), IsSpaceOrDot);
    TrimmedSegment(segment);
    LowerSpaces(t);
    if |t| > TAG_LIMIT { CutTag(Lower(t)); }
  }

  lemma LowerSpaces(t: string)
    requires SingleSpaced(t)
    ensures |Lower(t)| == |t| && SingleSpaced(Lower(t)) && Lower(Lower(t)) == Lower(t)
    ensures forall i | 0 <= i < |t| :: IsSpaceOrDot(Lower(t)[i]) == IsSpaceOrDot(t[i])
  {}

  /** First occurrences, in order; segments without a tag are passed over. */
  function FirstOnes(found: seq<Option<string>>, seen: set<string>): seq<string> {
    if found == [] then []
    else if found[0].Some? && found[0].value !in seen then
      [found[0].value] + FirstOnes(found[1..], seen + {found[0].value})
    else FirstOnes(found[1..], seen)
  }

  function TagsOf(segments: seq<string>): seq<Option<string>> {
    seq(|segments|, i requires 0 <= i < |segments| => TagOf(segments[i]))
  }

  /** Splitting on a comma or a semicolon. */
  function Segments(keywords: string): seq<string> {
    Split(ReplaceAll(FixMojibake(keywords), ";", ","), ',')
  }

  function ParseTags(keywords: string): seq<string> {
    if keywords == "" then [] else FirstOnes(TagsOf(Segments(keywords)), {})
  }

  lemma {:induction false} FirstOnesExact(found: seq<Option<string>>, seen: set<string>)
    ensures NoDuplicates(FirstOnes(found, seen))
    ensures forall t :: t in FirstOnes(found, seen) <==> t !in seen && Some(t) in found
  {
    if found == [] {
    } else {
      var first := found[0];
      var now := if first.Some? then seen + {first.value} else seen;
      FirstOnesExact(found[1..], now);
      assert found == [first] + found[1..];
      if first.Some? && first.value in seen { assert now == seen; }
    }
  }

  /** Tags are distinct, two to fifty characters, and are exactly the usable segments. */
  lemma ParseTagsExact(segments: seq<string>)
    ensures NoDuplicates(FirstOnes(TagsOf(segments), {}))
    ensures forall t :: t in FirstOnes(TagsOf(segments), {}) <==>
      exists i | 0 <= i < |segments| :: TagOf(segments[i]) == Some(t)
    ensures forall t | t in FirstOnes(TagsOf(segments), {}) :: 2 <= |t| <= TAG_LIMIT
  {
    var found := TagsOf(segments);
    FirstOnesExact(found, {});
    hide FirstOnes, TagOf, NoDuplicates;
    forall t
      ensures Some(t) in found <==> exists i | 0 <= i < |segments| :: TagOf(segments[i]) == Some(t)
    {
      if i :| 0 <= i < |segments| && TagOf(segments[i]) == Some(t) {
        assert found[i] == Some(t);
      }
    }
  }

  /** The loop of `parse_tags`. */
  method ComputeTags(segments: seq<string>) returns (tags: seq<string>)
    ensures tags == FirstOnes(TagsOf(segments), {})
  {
    tags := [];
    var seen: set<string> := {};
    ghost var found := TagsOf(segments);
    var i := 0;
    assert found[0..] == found;
    while i < |segments|
      invariant i <= |segments|
      invariant tags + FirstOnes(found[i..], seen) == FirstOnes(found, {})
    {
      assert found[i..][1..] == found[i + 1..];
      var tag := TagOf(segments[i]);
      if tag.Some? && tag.value !in seen {
        Associate(tags, [tag.value], FirstOnes(found[i + 1..], seen + {tag.value}));
        seen := seen + {tag.value};
        tags := tags + [tag.value];
      }
      i := i + 1;
    }
    assert found[i..] == [];
  }
}
