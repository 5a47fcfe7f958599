/** When normalising a field name twice is the same as normalising it once. */
module AuditNormal {
  import opened AuditFields

  /** Two underscores in a row. */
  predicate HasDouble(s: string) {
    |s| >= 2 && ((s[0] == '_' && s[1] == '_') || HasDouble(s[1..]))
  }

  /** Some run of separators between two other characters has a hyphen or a space behind its first
      separator. `seen` tells that another character came before, and `pending` counts the
      underscores that the present run is worth. */
  predicate WideGap(seen: bool, pending: nat, key: string)
    decreases |key|
  {
    if key == [] then false
    else if IsHard(key[0]) then WideGap(seen, pending + 1, key[1..])
    else if key[0] == '_' then WideGap(seen, if pending == 0 then 1 else pending, key[1..])
    else (seen && pending >= 2) || WideGap(true, 0, key[1..])
  }

  /** The same for what is written: some run of underscores between two other characters is longer
      than one. */
  predicate LongRun(seen: bool, pending: nat, s: string)
    decreases |s|
  {
    if s == [] then false
    else if s[0] == '_' then LongRun(seen, pending + 1, s[1..])
    else (seen && pending >= 2) || LongRun(true, 0, s[1..])
  }

  lemma LongRunNext(seen: bool, pending: nat, c: char, s: string)
    ensures LongRun(seen, pending, [c] + s) ==
            if c == '_' then LongRun(seen, pending + 1, s) else (seen && pending >= 2) || LongRun(true, 0, s)
  {
    assert ([c] + s)[1..] == s;
  }

  lemma LetterIsNoUnderscore(c: char)
    requires !IsSeparator(c)
    ensures LowerOf(c) != '_'
  {
  }

  /** A wide gap in the key is a long run in what is written for it. */
  lemma {:induction false} WideGapIsLongRun(before: Before, seen: bool, pending: nat, key: string)
    requires AfterSeparator(before) == (pending > 0)
    ensures LongRun(seen, pending, Written(before, key)) == WideGap(seen, pending, key)
    decreases |key|
  {
    if key == [] {
    } else {
      var (r, rest) := (key[0], key[1..]);
      var w := Written(After(r), rest);
      if IsHard(r) {
        WideGapIsLongRun(After(r), seen, pending + 1, rest);
        LongRunNext(seen, pending, '_', w);
      } else if r == '_' {
        WideGapIsLongRun(After(r), seen, if pending == 0 then 1 else pending, rest);
        LongRunNext(seen, pending, '_', w);
        assert [] + w == w;
      } else {
        WideGapIsLongRun(After(r), true, 0, rest);
        LetterIsNoUnderscore(r);
        LongRunNext(seen, pending, LowerOf(r), w);
        LongRunNext(seen, pending, '_', [LowerOf(r)] + w);
        LongRunNext(seen, pending + 1, LowerOf(r), w);
        assert ['_', LowerOf(r)] + w == ['_'] + ([LowerOf(r)] + w);
      }
    }
  }

  // ----- Trimming does not touch the runs between other characters -----

  lemma {:induction false} PendingIsForgotten(p: nat, q: nat, s: string)
    ensures LongRun(false, p, s) == LongRun(false, q, s)
    decreases |s|
  {
    if s == [] || s[0] != '_' {
    } else {
      PendingIsForgotten(p + 1, q + 1, s[1..]);
    }
  }

  lemma {:induction false} TrimLeftKeepsRuns(s: string)
    ensures LongRun(false, 0, TrimLeft(s)) == LongRun(false, 0, s)
    ensures TrimLeft(s) != [] ==> TrimLeft(s)[0] != '_'
    decreases |s|
  {
    if s == [] || s[0] != '_' {
    } else {
      TrimLeftKeepsRuns(s[1..]);
      PendingIsForgotten(0, 1, s[1..]);
    }
  }

  lemma {:induction false} LastUnderscoreDoesNotMatter(seen: bool, pending: nat, s: string)
    ensures LongRun(seen, pending, s + ['_']) == LongRun(seen, pending, s)
    decreases |s|
  {
    if s == [] {
      assert s + ['_'] == ['_'];
      assert (s + ['_'])[1..] == [];
    } else {
      assert (s + ['_'])[1..] == s[1..] + ['_'];
      LastUnderscoreDoesNotMatter(if s[0] == '_' then seen else true, if s[0] == '_' then pending + 1 else 0, s[1..]);
    }
  }

  lemma {:induction false} TrimRightKeepsRuns(s: string)
    requires s != [] ==> s[0] != '_'
    ensures LongRun(false, 0, TrimRight(s)) == LongRun(false, 0, s)
    ensures TrimRight(s) != [] ==> TrimRight(s)[0] != '_' && TrimRight(s)[|TrimRight(s)|-1] != '_'
    decreases |s|
  {
    if s == [] || s[|s|-1] != '_' {
    } else {
      var init := s[..|s|-1];
      assert s == init + ['_'];
      TrimRightKeepsRuns(init);
      LastUnderscoreDoesNotMatter(false, 0, init);
    }
  }

  lemma {:induction false} RunsInside(p: nat, s: string)
    requires s != [] && s[|s|-1] != '_'
    ensures LongRun(true, p, s) == (p >= 2 || (p >= 1 && s[0] == '_') || HasDouble(s))
    decreases |s|
  {
    if s[0] == '_' {
      RunsInside(p + 1, s[1..]);
    } else if |s| > 1 {
      RunsInside(0, s[1..]);
    }
  }

  lemma TrimmedRuns(t: string)
    requires t != [] ==> t[0] != '_' && t[|t|-1] != '_'
    ensures LongRun(false, 0, t) == HasDouble(t)
  {
    if |t| > 1 {
      RunsInside(0, t[1..]);
    }
  }

  /** The normal form of a key has two underscores in a row exactly when the key has a wide gap. */
  lemma DoubleIffWideGap(key: string)
    ensures HasDouble(Normal(key)) == WideGap(false, 0, key)
    ensures Normal(key) != [] ==> Normal(key)[0] != '_' && Normal(key)[|Normal(key)|-1] != '_'
  {
    var w := Written(Start, key);
    WideGapIsLongRun(Start, false, 0, key);
    TrimLeftKeepsRuns(w);
    TrimRightKeepsRuns(TrimLeft(w));
    TrimmedRuns(Normal(key));
  }

  // ----- Normalising a normal form -----

  /** No capital, hyphen or space. */
  predicate IsPlain(s: string) {
    forall i :: 0 <= i < |s| ==> !IsUpper(s[i]) && !IsHard(s[i])
  }

  lemma {:induction false} WrittenIsPlain(before: Before, key: string)
    ensures IsPlain(Written(before, key))
    decreases |key|
  {
    if key == [] {
    } else {
      WrittenIsPlain(After(key[0]), key[1..]);
    }
  }

  lemma {:induction false} TrimmingKeepsPlain(s: string)
    requires IsPlain(s)
    ensures IsPlain(TrimLeft(s)) && IsPlain(TrimRight(s))
    ensures |TrimLeft(s)| <= |s| && |TrimRight(s)| <= |s|
    decreases |s|
  {
    if s == [] {
    } else {
      TrimmingKeepsPlain(s[1..]);
      TrimmingKeepsPlain(s[..|s|-1]);
    }
  }

  /** A normal form has no capital, hyphen or space, and no underscore at either end. */
  lemma NormalIsClean(key: string)
    ensures var n := Normal(key);
            && (forall i :: 0 <= i < |n| ==> !IsUpper(n[i]) && n[i] != '-' && n[i] != ' ')
            && (n != [] ==> n[0] != '_' && n[|n|-1] != '_')
  {
    var w := Written(Start, key);
    WrittenIsPlain(Start, key);
    TrimmingKeepsPlain(w);
    TrimLeftLetters(w);
    TrimRightLetters(TrimLeft(w));
  }

  /** Of a plain string, only an underscore after an underscore is not written again. */
  lemma {:induction false} PlainIsWrittenAgain(before: Before, s: string)
    requires IsPlain(s)
    ensures |Written(before, s)| <= |s|
    ensures Written(before, s) == s <==> !HasDouble(s) && !(AfterSeparator(before) && s != [] && s[0] == '_')
    ensures Written(before, s) != s ==> |Written(before, s)| < |s|
    decreases |s|
  {
    if s == [] {
    } else {
      var rest := Written(After(s[0]), s[1..]);
      PlainIsWrittenAgain(After(s[0]), s[1..]);
      assert s == [s[0]] + s[1..];
      assert Written(before, s) == if s[0] == '_' && AfterSeparator(before) then rest else [s[0]] + rest;
    }
  }

  /** Normalising twice is the same as once exactly when the key has no wide gap. */
  lemma NormalTwiceIff(key: string)
    ensures Normal(Normal(key)) == Normal(key) <==> !WideGap(false, 0, key)
  {
    var n := Normal(key);
    DoubleIffWideGap(key);
    WrittenIsPlain(Start, key);
    TrimmingKeepsPlain(Written(Start, key));
    TrimmingKeepsPlain(TrimLeft(Written(Start, key)));
    PlainIsWrittenAgain(Start, n);
    var w := Written(Start, n);
    WrittenIsPlain(Start, n);
    TrimmingKeepsPlain(w);
    TrimmingKeepsPlain(TrimLeft(w));
    if w == n {
      TrimIsNothing(n);
    }
  }

  /** A key without a hyphen or a space has none; so its normal form is its own. */
  lemma {:induction false} NoHardNoGap(seen: bool, pending: nat, key: string)
    requires pending <= 1 && forall i :: 0 <= i < |key| ==> !IsHard(key[i])
    ensures !WideGap(seen, pending, key)
    decreases |key|
  {
    if key == [] {
    } else {
      NoHardNoGap(if key[0] == '_' then seen else true, if key[0] == '_' then 1 else 0, key[1..]);
    }
  }

  lemma NormalTwiceWithoutHyphens(key: string)
    requires forall i :: 0 <= i < |key| ==> !IsHard(key[i])
    ensures Normal(Normal(key)) == Normal(key)
  {
    NoHardNoGap(false, 0, key);
    NormalTwiceIff(key);
  }

  /** With two hyphens in a row it is not. */
  lemma NormalTwiceCanDiffer()
    ensures Normal(Normal("a--b")) != Normal("a--b")
  {
    assert "a--b"[1..] == "--b" && "--b"[1..] == "-b" && "-b"[1..] == "b" && "b"[1..] == [];
    NormalTwiceIff("a--b");
  }
}
