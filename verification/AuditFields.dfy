/** Normalising the name of a field, so that every spelling of a credential is recognised. */
module AuditFields {
  predicate IsUpper(r: char) {
    'A' <= r <= 'Z'
  }

  predicate IsLower(r: char) {
    'a' <= r <= 'z'
  }

  /** Replaced by an underscore, wherever it stands. */
  predicate IsHard(r: char) {
    r == '-' || r == ' '
  }

  predicate IsSeparator(r: char) {
    r == '_' || IsHard(r)
  }

  function LowerOf(r: char): char {
    if IsUpper(r) then r - 'A' + 'a' else r
  }

  function UpperOf(r: char): char {
    if IsLower(r) then r - 'a' + 'A' else r
  }

  // ----- The normal form -----

  /** What came just before: nothing yet, or a character. */
  datatype Before = Start | After(r: char)

  /** A capital starts a new word after a character that is no separator, unless it stands among
      capitals; the last capital before a small letter starts the next word. */
  predicate StartsWord(before: Before, r: char, rest: string) {
    before.After? && IsUpper(r) && !IsSeparator(before.r) && (!IsUpper(before.r) || (rest != [] && IsLower(rest[0])))
  }

  predicate AfterSeparator(before: Before) {
    before.After? && IsSeparator(before.r)
  }

  /** What is written for one character. */
  function Piece(before: Before, r: char, rest: string): string {
    if IsHard(r) then ['_']
    else if r == '_' then (if AfterSeparator(before) then [] else ['_'])
    else if StartsWord(before, r, rest) then ['_', LowerOf(r)]
    else [LowerOf(r)]
  }

  function Written(before: Before, key: string): string
    decreases |key|
  {
    if key == [] then [] else Piece(before, key[0], key[1..]) + Written(After(key[0]), key[1..])
  }

  function TrimLeft(s: string): string {
    if s != [] && s[0] == '_' then TrimLeft(s[1..]) else s
  }

  function TrimRight(s: string): string {
    if s != [] && s[|s|-1] == '_' then TrimRight(s[..|s|-1]) else s
  }

  function Trim(s: string): string {
    TrimRight(TrimLeft(s))
  }

  function Normal(key: string): string {
    Trim(Written(Start, key))
  }

  function BeforeAt(key: string, i: nat): Before
    requires i <= |key|
  {
    if i == 0 then Start else After(key[i-1])
  }

  method NormalizeAuditField(key: string) returns (r: string)
    ensures r == Normal(key)
  {
    var b := "";
    var i := 0;
    while i < |key|
      invariant 0 <= i <= |key|
      invariant (b != [] && b[|b|-1] == '_') == AfterSeparator(BeforeAt(key, i))
      invariant b + Written(BeforeAt(key, i), key[i..]) == Written(Start, key)
    {
      WrittenNext(key, i, b);
      b := WriteOne(b, key, i);
      i := i + 1;
    }
    assert key[i..] == [];
    assert b + [] == b;
    return Trim(b);
  }

  lemma WrittenNext(key: string, i: nat, b: string)
    requires i < |key|
    ensures b + Written(BeforeAt(key, i), key[i..])
         == (b + Piece(BeforeAt(key, i), key[i], key[i+1..])) + Written(BeforeAt(key, i + 1), key[i+1..])
  {
    assert key[i..][0] == key[i] && key[i..][1..] == key[i+1..];
  }

  /** One turn of the loop. */
  method WriteOne(was: string, key: string, i: nat) returns (b: string)
    requires i < |key| && (was != [] && was[|was|-1] == '_') == AfterSeparator(BeforeAt(key, i))
    ensures b == was + Piece(BeforeAt(key, i), key[i], key[i+1..])
    ensures (b != [] && b[|b|-1] == '_') == IsSeparator(key[i])
  {
    b := was;
    var r := key[i];
    if r == '-' || r == ' ' {
      return b + ['_'];
    }
    if i > 0 && IsUpper(r) {
      var prev := key[i-1];
      var nextIsLower := i + 1 < |key| && IsLower(key[i+1]);
      if prev != '_' && prev != '-' && prev != ' ' && (!IsUpper(prev) || nextIsLower) {
        b := b + ['_'];
      }
    }
    if IsUpper(r) {
      r := r - 'A' + 'a';
    }
    if r == '_' && |b| > 0 && b[|b|-1] == '_' {
      return;
    }
    b := b + [r];
  }

  /** A capital is written behind an underscore exactly when it comes after a character that is no separator,
      and that one is no capital or a small letter follows. */
  lemma CapitalStartsWordIff(before: Before, r: char, rest: string)
    requires 'A' <= r <= 'Z'
    ensures Written(before, [r] + rest)[0] == '_' <==>
              && before.After? && before.r != '_' && before.r != '-' && before.r != ' '
              && (before.r < 'A' || before.r > 'Z' || (rest != [] && 'a' <= rest[0] <= 'z'))
  {
    assert ([r] + rest)[1..] == rest;
  }

  // ----- What normalising keeps -----

  /** The characters that are no separators, in small letters. */
  function Letters(s: string): string {
    if s == [] then [] else (if IsSeparator(s[0]) then [] else [LowerOf(s[0])]) + Letters(s[1..])
  }

  lemma {:induction false} LettersConcat(a: string, b: string)
    ensures Letters(a + b) == Letters(a) + Letters(b)
  {
    if a == [] {
      assert a + b == b;
    } else {
      assert (a + b)[1..] == a[1..] + b;
      LettersConcat(a[1..], b);
    }
  }

  lemma PieceLetters(before: Before, r: char, rest: string)
    ensures Letters(Piece(before, r, rest)) == Letters([r])
  {
    assert [r][1..] == [] && ['_'][1..] == [] && ['_', LowerOf(r)][1..] == [LowerOf(r)] && [LowerOf(r)][1..] == [];
  }

  lemma {:induction false} WrittenLetters(before: Before, key: string)
    ensures Letters(Written(before, key)) == Letters(key)
    decreases |key|
  {
    if key == [] {
    } else {
      hide Piece;
      WrittenLetters(After(key[0]), key[1..]);
      PieceLetters(before, key[0], key[1..]);
      LettersConcat(Piece(before, key[0], key[1..]), Written(After(key[0]), key[1..]));
      LettersConcat([key[0]], key[1..]);
      assert [key[0]] + key[1..] == key;
    }
  }

  lemma {:induction false} TrimLeftLetters(s: string)
    ensures Letters(TrimLeft(s)) == Letters(s) && (TrimLeft(s) != [] ==> TrimLeft(s)[0] != '_')
  {
    if s == [] || s[0] != '_' {
    } else {
      TrimLeftLetters(s[1..]);
    }
  }

  lemma {:induction false} TrimRightLetters(s: string)
    ensures Letters(TrimRight(s)) == Letters(s) && TrimRight(s) <= s
    ensures TrimRight(s) != [] ==> TrimRight(s)[|TrimRight(s)|-1] != '_'
  {
    if s == [] || s[|s|-1] != '_' {
    } else {
      var init := s[..|s|-1];
      TrimRightLetters(init);
      LettersConcat(init, ['_']);
      assert init + ['_'] == s && ['_'][1..] == [];
    }
  }

  /** Normalising keeps every character that is no separator, in its order and in small letters. */
  lemma NormalKeepsLetters(key: string)
    ensures Letters(Normal(key)) == Letters(key)
  {
    WrittenLetters(Start, key);
    TrimLeftLetters(Written(Start, key));
    TrimRightLetters(TrimLeft(Written(Start, key)));
  }

  // ----- Every spelling of a name -----

  datatype Casing = Small | Capitalised | Capitals

  datatype Joint = Joined | By(separator: char)

  /** A word as it is spelled: how it is joined to the one before, and in which letters. */
  datatype Part = Part(joint: Joint, casing: Casing, word: string)

  /** A word of at least two small letters. */
  predicate IsWord(w: string) {
    |w| >= 2 && forall i :: 0 <= i < |w| ==> IsLower(w[i])
  }

  function InCapitals(w: string): string {
    if w == [] then [] else [UpperOf(w[0])] + InCapitals(w[1..])
  }

  function Cased(casing: Casing, w: string): string {
    match casing
    case Small => w
    case Capitalised => if w == [] then [] else [UpperOf(w[0])] + w[1..]
    case Capitals => InCapitals(w)
  }

  function Opening(joint: Joint): string {
    match joint
    case Joined => []
    case By(separator) => [separator]
  }

  function Spelled(parts: seq<Part>): string {
    if parts == [] then []
    else
      var p := parts[0];
      Opening(p.joint) + (Cased(p.casing, p.word) + Spelled(parts[1..]))
  }

  /** Words run together only where a capital shows the start: a capitalised word, or one in capitals
      after a small letter. */
  predicate Readable(before: Casing, parts: seq<Part>)
    decreases |parts|
  {
    parts == [] ||
    (var p := parts[0];
     && IsWord(p.word)
     && (match p.joint
         case By(separator) => IsSeparator(separator)
         case Joined => p.casing == Capitalised || (p.casing == Capitals && before != Capitals))
     && Readable(p.casing, parts[1..]))
  }

  /** The words with underscores before each. */
  function Underscored(parts: seq<Part>): string {
    if parts == [] then [] else ['_'] + (parts[0].word + Underscored(parts[1..]))
  }

  /** A name: a first word, in whatever letters, and the words that follow it. */
  predicate IsName(casing: Casing, first: string, parts: seq<Part>) {
    IsWord(first) && Readable(casing, parts)
  }

  lemma CapitalOf(c: char)
    requires IsLower(c)
    ensures LowerOf(UpperOf(c)) == c == LowerOf(c)
    ensures IsUpper(UpperOf(c)) && !IsLower(UpperOf(c)) && !IsSeparator(UpperOf(c)) && !IsSeparator(c) && !IsUpper(c)
  {
  }

  /** A capital among capitals starts no word. */
  lemma AmongCapitals(before: char, c: char, rest: string)
    requires IsUpper(before) && IsLower(c) && (rest != [] ==> !IsLower(rest[0]))
    ensures Piece(After(before), UpperOf(c), rest) == [c]
  {
    CapitalOf(c);
  }

  lemma WrittenFirst(before: Before, r: char, rest: string)
    ensures Written(before, [r] + rest) == Piece(before, r, rest) + Written(After(r), rest)
  {
    assert ([r] + rest)[1..] == rest;
  }

  lemma {:induction false} SmallLettersStay(before: Before, w: string, rest: string)
    requires w != [] && forall i :: 0 <= i < |w| ==> IsLower(w[i])
    ensures Written(before, w + rest) == w + Written(After(w[|w|-1]), rest)
    decreases |w|
  {
    WrittenFirst(before, w[0], w[1..] + rest);
    assert w + rest == [w[0]] + (w[1..] + rest);
    if |w| > 1 {
      SmallLettersStay(After(w[0]), w[1..], rest);
      Regroup([w[0]], w[1..], Written(After(w[|w|-1]), rest));
      assert w == [w[0]] + w[1..];
    } else {
      assert w[1..] + rest == rest && w == [w[0]];
    }
  }

  lemma Regroup(a: string, b: string, c: string)
    ensures a + (b + c) == (a + b) + c
  {
  }

  lemma {:induction false} CapitalsGoSmall(before: char, w: string, rest: string)
    requires w != [] && IsUpper(before) && (forall i :: 0 <= i < |w| ==> IsLower(w[i]))
    requires rest != [] ==> !IsLower(rest[0])
    ensures Written(After(before), InCapitals(w) + rest) == w + Written(After(UpperOf(w[|w|-1])), rest)
    decreases |w|
  {
    hide Piece;
    hide UpperOf;
    hide Written;
    hide InCapitals;
    var tail := InCapitals(w[1..]) + rest;
    CapitalOf(w[0]);
    CapitalsAre(w[1..]);
    InCapitalsSplits(w, rest);
    WrittenFirst(After(before), UpperOf(w[0]), tail);
    assert w == [w[0]] + w[1..];
    AmongCapitals(before, w[0], tail);
    if |w| > 1 {
      CapitalsGoSmall(UpperOf(w[0]), w[1..], rest);
      Regroup([w[0]], w[1..], Written(After(UpperOf(w[|w|-1])), rest));
    } else {
      assert w[1..] == [] && tail == rest;
    }
  }

  lemma InCapitalsSplits(w: string, rest: string)
    requires w != []
    ensures InCapitals(w) + rest == [UpperOf(w[0])] + (InCapitals(w[1..]) + rest)
  {
  }

  lemma CapitalsAre(w: string)
    requires forall i :: 0 <= i < |w| ==> IsLower(w[i])
    ensures w != [] ==> InCapitals(w) != [] && !IsLower(InCapitals(w)[0])
    ensures w == [] ==> InCapitals(w) == []
  {
    if w != [] {
      CapitalOf(w[0]);
    }
  }

  function LastChar(casing: Casing, w: string): char
    requires w != []
  {
    if casing == Capitals then UpperOf(w[|w|-1]) else w[|w|-1]
  }

  function FirstChar(casing: Casing, w: string): char
    requires w != []
  {
    if casing == Small then w[0] else UpperOf(w[0])
  }

  function OtherChars(casing: Casing, w: string): string
    requires w != []
  {
    if casing == Capitals then InCapitals(w[1..]) else w[1..]
  }

  lemma CasedSplits(casing: Casing, w: string)
    requires w != []
    ensures Cased(casing, w) == [FirstChar(casing, w)] + OtherChars(casing, w)
  {
  }

  /** After its first letter a word is written small. */
  lemma OthersAreWritten(casing: Casing, w: string, rest: string)
    requires IsWord(w) && (casing == Capitals && rest != [] ==> !IsLower(rest[0]))
    ensures Written(After(FirstChar(casing, w)), OtherChars(casing, w) + rest)
         == w[1..] + Written(After(LastChar(casing, w)), rest)
  {
    if casing == Capitals {
      CapitalsGoSmall(FirstChar(casing, w), w[1..], rest);
    } else {
      SmallLettersStay(After(FirstChar(casing, w)), w[1..], rest);
    }
  }

  /** A word is written small, after an underscore if its first letter shows a start. */
  lemma WordIsWritten(before: Before, casing: Casing, w: string, rest: string)
    requires IsWord(w) && (casing == Capitals && rest != [] ==> !IsLower(rest[0]))
    ensures Written(before, Cased(casing, w) + rest) ==
            (if StartsWord(before, FirstChar(casing, w), OtherChars(casing, w) + rest) then ['_'] else [])
            + (w + Written(After(LastChar(casing, w)), rest))
  {
    hide Written;
    hide StartsWord;
    hide UpperOf;
    hide LowerOf;
    var (first, others) := (FirstChar(casing, w), OtherChars(casing, w));
    var tail := Written(After(LastChar(casing, w)), rest);
    CapitalOf(w[0]);
    CasedSplits(casing, w);
    Regroup([first], others, rest);
    WrittenFirst(before, first, others + rest);
    OthersAreWritten(casing, w, rest);
    assert w == [w[0]] + w[1..];
    Regroup([w[0]], w[1..], tail);
    Regroup(['_'], [w[0]], w[1..] + tail);
    assert first != '_';
    assert Piece(before, first, others + rest) ==
           if StartsWord(before, first, others + rest) then ['_'] + [w[0]] else [w[0]];
    assert [] + (w + tail) == w + tail;
  }

  /** After a capital word there never comes a small letter. */
  lemma NoSmallAfterCapitals(parts: seq<Part>)
    requires Readable(Capitals, parts)
    ensures Spelled(parts) != [] ==> !IsLower(Spelled(parts)[0])
  {
    if parts != [] && parts[0].joint.Joined? {
      CasedSplits(parts[0].casing, parts[0].word);
    }
  }

  /** How a word may be joined to one that ended with `before`. */
  predicate JoinsAfter(before: char, p: Part) {
    match p.joint
    case By(separator) => IsSeparator(separator)
    case Joined => p.casing == Capitalised || (p.casing == Capitals && !IsUpper(before))
  }

  lemma JoinedShowsTheStart(before: char, p: Part, rest: string)
    requires IsWord(p.word) && p.joint == Joined && JoinsAfter(before, p) && !IsSeparator(before)
    ensures StartsWord(After(before), FirstChar(p.casing, p.word), OtherChars(p.casing, p.word) + rest)
  {
    CapitalOf(p.word[0]);
    if p.casing == Capitalised {
      assert (p.word[1..] + rest)[0] == p.word[1];
    }
  }

  lemma SeparatorIsWritten(before: char, separator: char, rest: string)
    requires !IsSeparator(before) && IsSeparator(separator)
    ensures Written(After(before), [separator] + rest) == ['_'] + Written(After(separator), rest)
  {
    WrittenFirst(After(before), separator, rest);
  }

  /** A word that follows another is written behind an underscore. */
  lemma {:induction false} PartIsWritten(before: char, p: Part, rest: string)
    requires IsWord(p.word) && (p.casing == Capitals && rest != [] ==> !IsLower(rest[0]))
    requires !IsSeparator(before) && JoinsAfter(before, p)
    ensures Written(After(before), Opening(p.joint) + (Cased(p.casing, p.word) + rest))
         == ['_'] + (p.word + Written(After(LastChar(p.casing, p.word)), rest))
  {
    hide Written;
    hide Cased;
    hide OtherChars;
    hide FirstChar;
    var (spelled, tail) := (Cased(p.casing, p.word) + rest, p.word + Written(After(LastChar(p.casing, p.word)), rest));
    match p.joint {
      case By(separator) =>
        SeparatorIsWritten(before, separator, spelled);
        WordIsWritten(After(separator), p.casing, p.word, rest);
        assert [] + tail == tail;
      case Joined =>
        assert [] + spelled == spelled;
        WordIsWritten(After(before), p.casing, p.word, rest);
        JoinedShowsTheStart(before, p, rest);
    }
  }

  lemma LastCharIs(casing: Casing, w: string)
    requires IsWord(w)
    ensures !IsSeparator(LastChar(casing, w)) && (casing != Capitals ==> !IsUpper(LastChar(casing, w)))
  {
    CapitalOf(w[|w|-1]);
  }

  lemma {:induction false} PartsAreWritten(casing: Casing, w: string, parts: seq<Part>)
    requires IsWord(w) && Readable(casing, parts)
    ensures Written(After(LastChar(casing, w)), Spelled(parts)) == Underscored(parts)
    decreases |parts|
  {
    if parts == [] {
    } else {
      if parts[0].casing == Capitals {
        NoSmallAfterCapitals(parts[1..]);
      }
      PartsAreWritten(parts[0].casing, parts[0].word, parts[1..]);
      LastCharIs(casing, w);
      PartIsWritten(LastChar(casing, w), parts[0], Spelled(parts[1..]));
    }
  }

  lemma {:induction false} EndsWithLetter(w: string, parts: seq<Part>, casing: Casing)
    requires IsWord(w) && Readable(casing, parts)
    ensures var s := w + Underscored(parts); s != [] && s[0] != '_' && s[|s|-1] != '_'
    decreases |parts|
  {
    if parts != [] {
      var (p, s) := (parts[0], w + Underscored(parts));
      EndsWithLetter(p.word, parts[1..], p.casing);
      assert s == w + ['_'] + (p.word + Underscored(parts[1..]));
    } else {
      assert w + Underscored(parts) == w;
    }
  }

  /** Every spelling of a name has the name's snake form as its normal form: the words may be joined
      by an underscore, a hyphen or a space, or run together, and be small, capitalised or in
      capitals, each as it likes. */
  lemma EverySpellingIsRecognised(casing: Casing, first: string, parts: seq<Part>)
    requires IsName(casing, first, parts)
    ensures Normal(Cased(casing, first) + Spelled(parts)) == first + Underscored(parts)
  {
    if casing == Capitals {
      NoSmallAfterCapitals(parts);
    }
    hide Written;
    WordIsWritten(Start, casing, first, Spelled(parts));
    PartsAreWritten(casing, first, parts);
    EndsWithLetter(first, parts, casing);
    assert [] + (first + Underscored(parts)) == first + Underscored(parts);
    TrimIsNothing(first + Underscored(parts));
  }

  lemma TrimIsNothing(s: string)
    requires s != [] ==> s[0] != '_' && s[|s|-1] != '_'
    ensures Trim(s) == s
  {
  }

  /** The styles in use: one joint and one casing for all words but the first. */
  function Styled(joint: Joint, casing: Casing, words: seq<string>): seq<Part> {
    if words == [] then [] else [Part(joint, casing, words[0])] + Styled(joint, casing, words[1..])
  }

  predicate AllWords(words: seq<string>) {
    forall i :: 0 <= i < |words| ==> IsWord(words[i])
  }

  function SnakeTail(words: seq<string>): string {
    if words == [] then [] else ['_'] + (words[0] + SnakeTail(words[1..]))
  }

  lemma {:induction false} StyledIsReadable(first: Casing, joint: Joint, casing: Casing, words: seq<string>)
    requires AllWords(words)
    requires (joint.By? ==> IsSeparator(joint.separator)) && (joint.Joined? ==> casing == Capitalised)
    ensures Readable(first, Styled(joint, casing, words))
    ensures Underscored(Styled(joint, casing, words)) == SnakeTail(words)
    decreases |words|
  {
    if words == [] {
    } else {
      StyledIsReadable(casing, joint, casing, words[1..]);
      assert Styled(joint, casing, words)[1..] == Styled(joint, casing, words[1..]);
    }
  }

  /** The snake, kebab, spaced, camel, Pascal and screaming-snake spellings of a name are all
      normalised to its snake form. */
  lemma AllStylesAgree(first: string, words: seq<string>)
    requires IsWord(first) && AllWords(words)
    ensures Normal(first + Spelled(Styled(By('_'), Small, words))) == first + SnakeTail(words)
    ensures Normal(first + Spelled(Styled(By('-'), Small, words))) == first + SnakeTail(words)
    ensures Normal(first + Spelled(Styled(By(' '), Small, words))) == first + SnakeTail(words)
    ensures Normal(first + Spelled(Styled(Joined, Capitalised, words))) == first + SnakeTail(words)
    ensures Normal(Cased(Capitalised, first) + Spelled(Styled(Joined, Capitalised, words))) == first + SnakeTail(words)
    ensures Normal(Cased(Capitals, first) + Spelled(Styled(By('_'), Capitals, words))) == first + SnakeTail(words)
  {
    StyleAgrees(Small, first, By('_'), Small, words);
    StyleAgrees(Small, first, By('-'), Small, words);
    StyleAgrees(Small, first, By(' '), Small, words);
    StyleAgrees(Small, first, Joined, Capitalised, words);
    StyleAgrees(Capitalised, first, Joined, Capitalised, words);
    StyleAgrees(Capitals, first, By('_'), Capitals, words);
  }

  lemma StyleAgrees(casing: Casing, first: string, joint: Joint, tail: Casing, words: seq<string>)
    requires IsWord(first) && AllWords(words)
    requires (joint.By? ==> IsSeparator(joint.separator)) && (joint.Joined? ==> tail == Capitalised)
    ensures Normal(Cased(casing, first) + Spelled(Styled(joint, tail, words))) == first + SnakeTail(words)
  {
    StyledIsReadable(casing, joint, tail, words);
    EverySpellingIsRecognised(casing, first, Styled(joint, tail, words));
  }
}
