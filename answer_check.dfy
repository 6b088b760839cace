/**
 * Answer checking in the IPFS quiz hook: the text normaliser behind
 * `validateAnswer` and the percentage scorer `calculateScore`.
 *
 * `normalizeText` lower-cases, trims, deletes the characters
 * `. , ! ? ¡ ¿ ; :` and replaces every run of whitespace by one space, in
 * that order. Because trimming happens before punctuation is deleted, the
 * result can still begin or end with one space ("hola ." becomes "hola "),
 * so normalising twice is not always the same as normalising once.
 */
module AnswerCheck {
  import opened JsRuntime
  import opened QuizTypes

  // ---------------------------------------------------------------------------
  // Normalisation

  /** The capitals `toLowerCase` is modelled on: ASCII and Latin-1 ones. */
  predicate IsCapital(c: char)
  {
    ('A' <= c <= 'Z') || (0xC0 <= c as int <= 0xDE && c as int != 0xD7)
  }

  /** `toLowerCase` on one character. */
  function Lower(c: char): (d: char)
    ensures IsCapital(c) ==> d as int == c as int + 32
    ensures !IsCapital(c) ==> d == c
    ensures !IsCapital(d)
    ensures IsSpace(d) <==> IsSpace(c)
    ensures IsPunctuation(d) <==> IsPunctuation(c)
  {
    if 'A' <= c <= 'Z' then (c as int + 32) as char
    else if 0xC0 <= c as int <= 0xDE && c as int != 0xD7 then (c as int + 32) as char
    else c
  }

  function LowerString(s: string): (r: string)
    ensures |r| == |s|
    ensures forall i :: 0 <= i < |s| ==> r[i] == Lower(s[i])
  {
    seq(|s|, i requires 0 <= i < |s| => Lower(s[i]))
  }

  /** The characters of the character class `[.,!?¡¿;:]`. */
  predicate IsPunctuation(c: char)
  {
    c == '.' || c == ',' || c == '!' || c == '?' || c == ';' || c == ':'
    || c as int == 0xA1 || c as int == 0xBF
  }

  /** A character that normalisation leaves alone: no punctuation, no capital. */
  predicate IsClean(c: char)
  {
    !IsPunctuation(c) && !IsCapital(c)
  }

  predicate NoCapitals(s: string)
  {
    forall i :: 0 <= i < |s| ==> !IsCapital(s[i])
  }

  predicate AllClean(s: string)
  {
    forall i :: 0 <= i < |s| ==> IsClean(s[i])
  }

  predicate NotPunctuation(c: char) { !IsPunctuation(c) }

  predicate NotSpace(c: char) { !IsSpace(c) }

  /** A character that carries wording: neither whitespace nor punctuation. */
  predicate IsWordChar(c: char) { !IsSpace(c) && !IsPunctuation(c) }

  /** The characters of `s` that satisfy `keep`, in their original order. */
  function Keep(keep: char -> bool, s: string): (r: string)
    ensures |r| <= |s|
  {
    if s == [] then [] else (if keep(s[0]) then [s[0]] else []) + Keep(keep, s[1..])
  }

  /** The wording of a text: everything but whitespace and punctuation. */
  function Wording(s: string): string
  {
    Keep(IsWordChar, s)
  }

  /** `replace(/[.,!?¡¿;:]/g, '')`: every punctuation character is deleted and
      the others are kept in order. */
  function StripPunctuation(s: string): (r: string)
    ensures r == Keep(NotPunctuation, s)
    ensures |r| <= |s|
    ensures forall i :: 0 <= i < |r| ==> !IsPunctuation(r[i])
    ensures NoCapitals(s) ==> AllClean(r)
    ensures (forall i :: 0 <= i < |s| ==> !IsPunctuation(s[i])) ==> r == s
  {
    if s == [] then []
    else (if IsPunctuation(s[0]) then [] else [s[0]]) + StripPunctuation(s[1..])
  }

  /** `replace(/\s+/g, ' ')`: every maximal run of whitespace becomes one space. */
  function CollapseSpaces(s: string): (r: string)
    ensures |r| <= |s|
    decreases |s|
  {
    if s == [] then []
    else if IsSpace(s[0]) then [' '] + CollapseSpaces(TrimStart(s))
    else [s[0]] + CollapseSpaces(s[1..])
  }

  /** After collapsing, ' ' is the only whitespace and never comes twice in a
      row; the result is empty, or starts with whitespace, exactly when the
      input is; and no punctuation or capital is introduced. */
  lemma {:induction false} CollapseSpacesShape(s: string)
    ensures var r := CollapseSpaces(s);
      && (r == []) == (s == [])
      && (r != [] ==> (IsSpace(r[0]) <==> IsSpace(s[0])))
      && (forall i :: 0 <= i < |r| ==> IsSpace(r[i]) ==> r[i] == ' ')
      && (forall i :: 0 <= i < |r| - 1 ==> !(IsSpace(r[i]) && IsSpace(r[i + 1])))
      && (AllClean(s) ==> AllClean(r))
    decreases |s|
  {
    if s != [] {
      if IsSpace(s[0]) {
        var t := TrimStart(s);
        CollapseSpacesShape(t);
        assert AllClean(s) ==> AllClean(t) by {
          if AllClean(s) {
            forall i | 0 <= i < |t| ensures IsClean(t[i]) {
              assert t[i] == s[|s| - |t| + i];
            }
          }
        }
      } else {
        CollapseSpacesShape(s[1..]);
      }
    }
  }

  /** What a normalised answer looks like: no punctuation, nothing left to
      lower-case, ' ' the only whitespace, and never two spaces in a row. */
  predicate Normalized(r: string)
  {
    && AllClean(r)
    && (forall i :: 0 <= i < |r| ==> IsSpace(r[i]) ==> r[i] == ' ')
    && (forall i :: 0 <= i < |r| - 1 ==> !(r[i] == ' ' && r[i + 1] == ' '))
  }

  /** Trimming keeps a string free of capitals. */
  lemma TrimKeepsNoCapitals(s: string)
    requires NoCapitals(s)
    ensures NoCapitals(Trim(s))
  {
    var t := TrimStart(s);
    assert NoCapitals(t) by {
      forall i | 0 <= i < |t| ensures !IsCapital(t[i]) {
        assert t[i] == s[|s| - |t| + i];
      }
    }
    var u := TrimEnd(t);
    assert forall i :: 0 <= i < |u| ==> u[i] == t[i];
  }

  /** `normalizeText`: lower-case, trim, delete punctuation, collapse whitespace. */
  function Normalize(s: string): (r: string)
    ensures Normalized(r)
    ensures Wording(r) == Wording(LowerString(s))
    ensures |r| <= |s|
  {
    var lowered := LowerString(s);
    TrimKeepsNoCapitals(lowered);
    WordingSurvives(lowered);
    CollapseSpacesShape(StripPunctuation(Trim(lowered)));
    CollapseSpaces(StripPunctuation(Trim(lowered)))
  }

  // ---------------------------------------------------------------------------
  // What normalisation keeps

  lemma KeepCons(keep: char -> bool, c: char, s: string)
    ensures Keep(keep, [c] + s) == (if keep(c) then [c] else []) + Keep(keep, s)
  {
    assert ([c] + s)[1..] == s;
  }

  lemma {:induction false} KeepAppend(keep: char -> bool, a: string, b: string)
    ensures Keep(keep, a + b) == Keep(keep, a) + Keep(keep, b)
  {
    if a == [] {
      assert a + b == b;
    } else {
      var head := if keep(a[0]) then [a[0]] else [];
      assert (a + b)[0] == a[0] && (a + b)[1..] == a[1..] + b;
      assert Keep(keep, a + b) == head + Keep(keep, a[1..] + b);
      KeepAppend(keep, a[1..], b);
      assert head + (Keep(keep, a[1..]) + Keep(keep, b)) == (head + Keep(keep, a[1..])) + Keep(keep, b);
    }
  }

  /** Filtering twice is filtering once by both tests. */
  lemma {:induction false} KeepKeep(outer: char -> bool, inner: char -> bool, both: char -> bool, s: string)
    requires forall c :: both(c) == (outer(c) && inner(c))
    ensures Keep(outer, Keep(inner, s)) == Keep(both, s)
  {
    if s != [] {
      KeepAppend(outer, if inner(s[0]) then [s[0]] else [], Keep(inner, s[1..]));
      KeepKeep(outer, inner, both, s[1..]);
    }
  }

  lemma {:induction false} KeepNoSpaces(g: string)
    requires forall i :: 0 <= i < |g| ==> IsSpace(g[i])
    ensures Keep(NotSpace, g) == []
  {
    if g != [] {
      KeepNoSpaces(g[1..]);
    }
  }

  /** Leading whitespace adds nothing to the non-space characters. */
  lemma KeepAfterSpaces(g: string, t: string)
    requires forall i :: 0 <= i < |g| ==> IsSpace(g[i])
    ensures Keep(NotSpace, g + t) == Keep(NotSpace, t)
  {
    KeepAppend(NotSpace, g, t);
    KeepNoSpaces(g);
  }

  /** Trailing whitespace adds nothing to the non-space characters. */
  lemma KeepBeforeSpaces(t: string, g: string)
    requires forall i :: 0 <= i < |g| ==> IsSpace(g[i])
    ensures Keep(NotSpace, t + g) == Keep(NotSpace, t)
  {
    KeepAppend(NotSpace, t, g);
    KeepNoSpaces(g);
  }

  /** A string is its leading whitespace followed by what `TrimStart` keeps. */
  lemma TrimStartSplit(s: string)
    ensures var k := |s| - |TrimStart(s)|;
      && s == s[..k] + TrimStart(s)
      && forall i :: 0 <= i < k ==> IsSpace(s[..k][i])
  {
  }

  /** A string is what `TrimEnd` keeps followed by its trailing whitespace. */
  lemma TrimEndSplit(s: string)
    ensures var k := |TrimEnd(s)|;
      && s == TrimEnd(s) + s[k..]
      && forall i :: 0 <= i < |s| - k ==> IsSpace(s[k..][i])
  {
  }

  /** Trimming removes whitespace only. */
  lemma TrimKeepsNonSpace(s: string)
    ensures Keep(NotSpace, Trim(s)) == Keep(NotSpace, s)
  {
    var t := TrimStart(s);
    TrimStartSplit(s);
    KeepAfterSpaces(s[..|s| - |t|], t);
    TrimEndSplit(t);
    KeepBeforeSpaces(TrimEnd(t), t[|TrimEnd(t)|..]);
  }

  /** Collapsing whitespace keeps every other character, in order. */
  lemma {:induction false} CollapseKeepsNonSpace(s: string)
    ensures Keep(NotSpace, CollapseSpaces(s)) == Keep(NotSpace, s)
    decreases |s|
  {
    if s != [] {
      if IsSpace(s[0]) {
        var t := TrimStart(s);
        KeepCons(NotSpace, ' ', CollapseSpaces(t));
        CollapseKeepsNonSpace(t);
        TrimStartSplit(s);
        KeepAfterSpaces(s[..|s| - |t|], t);
      } else {
        KeepCons(NotSpace, s[0], CollapseSpaces(s[1..]));
        CollapseKeepsNonSpace(s[1..]);
      }
    }
  }

  /** Trimming, deleting punctuation and collapsing whitespace leave the
      wording of a text as it was. */
  lemma WordingSurvives(x: string)
    ensures Wording(CollapseSpaces(StripPunctuation(Trim(x)))) == Wording(x)
  {
    var trimmed := Trim(x);
    var stripped := StripPunctuation(trimmed);
    var r := CollapseSpaces(stripped);
    KeepKeep(NotPunctuation, NotSpace, IsWordChar, r);
    CollapseKeepsNonSpace(stripped);
    KeepKeep(NotPunctuation, NotSpace, IsWordChar, stripped);
    KeepKeep(IsWordChar, NotPunctuation, IsWordChar, trimmed);
    KeepKeep(NotPunctuation, NotSpace, IsWordChar, trimmed);
    TrimKeepsNonSpace(x);
    KeepKeep(NotPunctuation, NotSpace, IsWordChar, x);
  }

  /** Lower-casing and taking the wording commute. */
  lemma {:induction false} WordingOfLower(s: string)
    ensures Wording(LowerString(s)) == LowerString(Wording(s))
  {
    if s != [] {
      assert LowerString(s) == [Lower(s[0])] + LowerString(s[1..]);
      KeepCons(IsWordChar, Lower(s[0]), LowerString(s[1..]));
      WordingOfLower(s[1..]);
      var head := if IsWordChar(s[0]) then [s[0]] else [];
      assert LowerString(head + Wording(s[1..])) == LowerString(head) + LowerString(Wording(s[1..]));
    }
  }

  /** `validateAnswer`: the two answers agree once both are normalised. */
  function ValidateAnswer(userAnswer: string, correctAnswer: string): (ok: bool)
    ensures LowerString(userAnswer) == LowerString(correctAnswer) ==> ok
    ensures ok ==> Wording(LowerString(userAnswer)) == Wording(LowerString(correctAnswer))
  {
    Normalize(userAnswer) == Normalize(correctAnswer)
  }

  /** Validation is strict on wording: two answers that validate have the
      same characters apart from whitespace and punctuation, up to case. */
  lemma ValidateAnswerComparesWording(a: string, b: string)
    ensures ValidateAnswer(a, b) ==> LowerString(Wording(a)) == LowerString(Wording(b))
  {
    WordingOfLower(a);
    WordingOfLower(b);
  }

  /** Being an equality of normal forms, answer validation is an equivalence. */
  lemma ValidateAnswerIsEquivalence(a: string, b: string, c: string)
    ensures ValidateAnswer(a, a)
    ensures ValidateAnswer(a, b) == ValidateAnswer(b, a)
    ensures ValidateAnswer(a, b) && ValidateAnswer(b, c) ==> ValidateAnswer(a, c)
  {
  }

  /** Collapsing leaves a string alone when ' ' is its only whitespace and no
      two spaces are adjacent. */
  lemma {:induction false} CollapseSpacesFixed(r: string)
    requires forall i :: 0 <= i < |r| ==> (IsSpace(r[i]) ==> r[i] == ' ')
    requires forall i :: 0 <= i < |r| - 1 ==> !(r[i] == ' ' && r[i + 1] == ' ')
    ensures CollapseSpaces(r) == r
  {
    if r != [] {
      if IsSpace(r[0]) {
        if |r| > 1 {
          assert !IsSpace(r[1]);
        }
        assert TrimStart(r) == r[1..];
      }
      CollapseSpacesFixed(r[1..]);
    }
  }

  /**
   * Normalising an already normalised answer changes nothing as long as it
   * neither begins nor ends with a space; only those two edge spaces make the
   * normaliser fail to be idempotent.
   */
  lemma NormalizeIdempotentWithoutEdgeSpaces(s: string)
    requires var r := Normalize(s); r == [] || (r[0] != ' ' && r[|r| - 1] != ' ')
    ensures Normalize(Normalize(s)) == Normalize(s)
  {
    var r := Normalize(s);
    assert LowerString(r) == r;
    assert r == [] || (!IsSpace(r[0]) && !IsSpace(r[|r| - 1]));
    assert TrimStart(r) == r;
    assert TrimEnd(r) == r;
    assert StripPunctuation(r) == r;
    CollapseSpacesFixed(r);
  }

  /** A non-empty word: lower-case, without punctuation or whitespace. */
  predicate IsPlainWord(w: string)
  {
    IsWord(w) && NoCapitals(w)
  }

  /** A plain word followed by " ." normalises to the word and one space: the
      space is trimmed only after the dot has gone. */
  lemma NormalizeWordSpaceDot(w: string)
    requires IsPlainWord(w)
    ensures Normalize(w + " .") == w + " "
  {
    var s := w + " .";
    assert LowerString(s) == s;
    CleanWordSpaceDot(w);
  }

  lemma CleanWordSpaceDot(w: string)
    requires IsPlainWord(w)
    ensures CollapseSpaces(StripPunctuation(Trim(w + " ."))) == w + " "
  {
    var t := w + " ";
    var s := t + ".";
    assert w + " ." == s by {
      assert forall i :: 0 <= i < |s| ==> (w + " .")[i] == s[i];
    }
    assert Trim(s) == s by {
      assert TrimStart(s) == s by { assert !IsSpace(s[0]); }
      assert !IsSpace(s[|s| - 1]);
    }
    assert StripPunctuation(s) == t by {
      StripPunctuationAppend(t, ".");
      assert StripPunctuation(t) == t;
    }
    CollapseSpacesFixed(t);
  }

  /** A plain word followed by a space normalises to the bare word. */
  lemma NormalizeWordSpace(w: string)
    requires IsPlainWord(w)
    ensures Normalize(w + " ") == w
  {
    var t := w + " ";
    assert LowerString(t) == t;
    assert Trim(t) == w by {
      assert TrimStart(t) == t by { assert !IsSpace(t[0]); }
      assert t[..|t| - 1] == w;
      assert TrimEnd(t) == TrimEnd(w);
      assert TrimEnd(w) == w by { assert !IsSpace(w[|w| - 1]); }
    }
    assert StripPunctuation(w) == w;
    CollapseSpacesFixed(w);
  }

  /**
   * The normaliser is not idempotent: for any plain word w (such as "hola"),
   * `w + " ."` normalises to `w + " "`, which normalises further to `w`.
   */
  lemma NormalizeNotIdempotent(w: string)
    requires IsPlainWord(w)
    ensures Normalize(Normalize(w + " .")) == w != Normalize(w + " .")
  {
    NormalizeWordSpaceDot(w);
    NormalizeWordSpace(w);
    assert |w + " "| != |w|;
  }

  /** Deleting punctuation distributes over concatenation. */
  lemma StripPunctuationAppend(a: string, b: string)
    ensures StripPunctuation(a + b) == StripPunctuation(a) + StripPunctuation(b)
  {
    KeepAppend(NotPunctuation, a, b);
  }

  // ---------------------------------------------------------------------------
  // Lenient on case, punctuation and spacing

  /** A word as typed: non-empty, no whitespace, no punctuation (capitals
      allowed). */
  predicate IsWord(w: string)
  {
    w != [] && forall i :: 0 <= i < |w| ==> !IsSpace(w[i]) && !IsPunctuation(w[i])
  }

  lemma LowerWord(w: string)
    requires IsWord(w)
    ensures IsPlainWord(LowerString(w))
  {
  }

  lemma {:induction false} LowerStringAppend(a: string, b: string)
    ensures LowerString(a + b) == LowerString(a) + LowerString(b)
  {
    assert forall i :: 0 <= i < |a + b| ==> LowerString(a + b)[i] == (LowerString(a) + LowerString(b))[i];
  }

  /** A plain word has nothing to trim. */
  lemma TrimPlainWord(x: string)
    requires x != [] && !IsSpace(x[0]) && !IsSpace(x[|x| - 1])
    ensures Trim(x) == x
  {
    assert TrimStart(x) == x;
    assert TrimEnd(x) == x;
  }

  /** A single word normalises to its lower-case form. */
  lemma NormalizeWord(w: string)
    requires IsWord(w)
    ensures Normalize(w) == LowerString(w)
  {
    var x := LowerString(w);
    LowerWord(w);
    TrimPlainWord(x);
    assert StripPunctuation(x) == x;
    CollapseSpacesFixed(x);
  }

  /** A punctuation mark straight after a word does not count. */
  lemma NormalizeWordPunctuation(w: string, p: char)
    requires IsWord(w) && IsPunctuation(p)
    ensures Normalize(w + [p]) == LowerString(w)
  {
    var x := LowerString(w);
    LowerWord(w);
    LowerStringAppend(w, [p]);
    assert LowerString([p]) == [p];
    CleanWordPunctuation(x, p);
  }

  lemma CleanWordPunctuation(x: string, p: char)
    requires IsPlainWord(x) && IsPunctuation(p)
    ensures CollapseSpaces(StripPunctuation(Trim(x + [p]))) == x
  {
    TrimPlainWord(x + [p]);
    StripPunctuationAppend(x, [p]);
    assert StripPunctuation(x) == x;
    assert StripPunctuation([p]) == [];
    assert x + [] == x;
    CollapseSpacesFixed(x);
  }

  /** Leading whitespace before a word is all that `TrimStart` removes. */
  lemma {:induction false} TrimStartAfterSpaces(g: string, b: string)
    requires forall i :: 0 <= i < |g| ==> IsSpace(g[i])
    requires b != [] && !IsSpace(b[0])
    ensures TrimStart(g + b) == b
  {
    if g == [] {
      assert g + b == b;
    } else {
      assert (g + b)[1..] == g[1..] + b;
      TrimStartAfterSpaces(g[1..], b);
    }
  }

  lemma CollapseCons(c: char, t: string)
    requires !IsSpace(c)
    ensures CollapseSpaces([c] + t) == [c] + CollapseSpaces(t)
  {
    assert ([c] + t)[1..] == t;
  }

  /** No character of `a` is whitespace, stated one character at a time. */
  predicate SpaceFree(a: string)
  {
    a == [] || (!IsSpace(a[0]) && SpaceFree(a[1..]))
  }

  lemma {:induction false} SpaceFreeOfWord(a: string)
    requires forall i :: 0 <= i < |a| ==> !IsSpace(a[i])
    ensures SpaceFree(a)
  {
    if a != [] {
      SpaceFreeOfWord(a[1..]);
    }
  }

  /** Collapsing leaves a leading word alone. */
  lemma {:induction false} CollapseAfterWord(a: string, t: string)
    requires SpaceFree(a)
    ensures CollapseSpaces(a + t) == a + CollapseSpaces(t)
  {
    if a == [] {
      assert a + t == t;
    } else {
      assert a + t == [a[0]] + (a[1..] + t);
      CollapseCons(a[0], a[1..] + t);
      CollapseAfterWord(a[1..], t);
      assert [a[0]] + (a[1..] + CollapseSpaces(t)) == a + CollapseSpaces(t);
    }
  }

  /** Any run of whitespace between two words counts as one space. */
  lemma NormalizeTwoWords(a: string, gap: string, b: string)
    requires IsWord(a) && IsWord(b)
    requires gap != [] && forall i :: 0 <= i < |gap| ==> IsSpace(gap[i])
    ensures Normalize(a + gap + b) == LowerString(a) + " " + LowerString(b)
  {
    var la, lg, lb := LowerString(a), LowerString(gap), LowerString(b);
    LowerWord(a);
    LowerWord(b);
    assert forall i :: 0 <= i < |lg| ==> IsSpace(lg[i]);
    LowerStringAppend(a + gap, b);
    LowerStringAppend(a, gap);
    CleanTwoWords(la, lg, lb);
  }

  /** The cleaning steps after lower-casing turn two plain words around a
      run of whitespace into the words around one space. */
  lemma CleanTwoWords(la: string, lg: string, lb: string)
    requires IsPlainWord(la) && IsPlainWord(lb)
    requires lg != [] && forall i :: 0 <= i < |lg| ==> IsSpace(lg[i])
    ensures CollapseSpaces(StripPunctuation(Trim(la + lg + lb))) == la + " " + lb
  {
    var x := la + lg + lb;
    Associate(la, lg, lb);
    assert x[0] == la[0] && x[|x| - 1] == lb[|lb| - 1];
    TrimPlainWord(x);
    StripTwoWords(la, lg, lb);
    CollapseTwoWords(la, lg, lb);
  }

  lemma StripTwoWords(la: string, lg: string, lb: string)
    requires IsPlainWord(la) && IsPlainWord(lb)
    requires forall i :: 0 <= i < |lg| ==> IsSpace(lg[i])
    ensures StripPunctuation(la + lg + lb) == la + lg + lb
  {
    Associate(la, lg, lb);
    StripPunctuationAppend(la, lg + lb);
    StripPunctuationAppend(lg, lb);
    assert StripPunctuation(la) == la;
    assert StripPunctuation(lg) == lg;
    assert StripPunctuation(lb) == lb;
  }

  lemma CollapseTwoWords(la: string, lg: string, lb: string)
    requires IsPlainWord(la) && IsPlainWord(lb)
    requires lg != [] && forall i :: 0 <= i < |lg| ==> IsSpace(lg[i])
    ensures CollapseSpaces(la + lg + lb) == la + " " + lb
  {
    Associate(la, lg, lb);
    SpaceFreeOfWord(la);
    CollapseAfterWord(la, lg + lb);
    CollapseAfterSpaces(lg, lb);
    CollapseSpacesFixed(lb);
    Associate(la, " ", lb);
  }

  lemma Associate(p: string, q: string, r: string)
    ensures p + q + r == p + (q + r)
  {
  }

  /** A run of whitespace before a word collapses to one space. */
  lemma CollapseAfterSpaces(g: string, b: string)
    requires g != [] && forall i :: 0 <= i < |g| ==> IsSpace(g[i])
    requires b != [] && !IsSpace(b[0])
    ensures CollapseSpaces(g + b) == " " + CollapseSpaces(b)
  {
    assert (g + b)[0] == g[0];
    TrimStartAfterSpaces(g, b);
  }

  /** A trailing punctuation mark and capitals are forgiven: "Hola," is
      accepted for "hola", and for one-word answers the check is exactly a
      comparison of the lower-case forms. */
  lemma ValidateAnswerIgnoresTrailingPunctuation(w: string, p: char, v: string)
    requires IsWord(w) && IsWord(v) && IsPunctuation(p)
    ensures ValidateAnswer(w + [p], v) <==> LowerString(w) == LowerString(v)
  {
    NormalizeWordPunctuation(w, p);
    NormalizeWord(v);
  }

  /** The width of the gap between two words is forgiven: "Hola amigo" is
      accepted for "Hola  amigo". */
  lemma ValidateAnswerIgnoresGapWidth(a: string, g1: string, b: string, c: string, g2: string, d: string)
    requires IsWord(a) && IsWord(b) && IsWord(c) && IsWord(d)
    requires g1 != [] && forall i :: 0 <= i < |g1| ==> IsSpace(g1[i])
    requires g2 != [] && forall i :: 0 <= i < |g2| ==> IsSpace(g2[i])
    requires LowerString(a) == LowerString(c) && LowerString(b) == LowerString(d)
    ensures ValidateAnswer(a + g1 + b, c + g2 + d)
  {
    NormalizeTwoWords(a, g1, b);
    NormalizeTwoWords(c, g2, d);
  }

  /** A letter that differs other than by case is not forgiven: "Adios" is
      rejected for "Adiós", since 'o' and 'ó' are distinct lower-case
      letters. */
  lemma ValidateAnswerStrictOnAccents(v: string, w: string, i: nat)
    requires IsWord(v) && IsWord(w)
    requires i < |v| && i < |w|
    requires !IsCapital(v[i]) && !IsCapital(w[i]) && v[i] != w[i]
    ensures !ValidateAnswer(v, w)
  {
    NormalizeWord(v);
    NormalizeWord(w);
    assert LowerString(v)[i] != LowerString(w)[i];
  }

  // ---------------------------------------------------------------------------
  // Scoring

  /** The result of `Math.round((correct / total) * 100)`: NaN when there are no
      questions (0 / 0). */
  datatype Score = Percent(value: nat) | NotANumber

  /** The number of positions, among the first |answers| ones, whose answer
      validates against the question's reference translation. */
  function CountCorrect(questions: seq<Question>, answers: seq<string>): (c: nat)
    requires |questions| == |answers|
    ensures c <= |questions|
  {
    if answers == [] then 0
    else
      var n := |answers| - 1;
      CountCorrect(questions[..n], answers[..n])
      + (if ValidateAnswer(answers[n], questions[n].correctTranslation) then 1 else 0)
  }

  /** `Math.round(100 * correct / total)`, rounding halves up. */
  function RoundedPercent(correct: nat, total: nat): (r: Score)
    ensures total == 0 <==> r.NotANumber?
  {
    if total == 0 then NotANumber else Percent((200 * correct + total) / (2 * total))
  }

  /**
   * The rounded percentage is within half a point of 100 * correct / total,
   * a tie going up, and lies in [0, 100] when correct <= total.
   */
  lemma RoundedPercentIsNearest(correct: nat, total: nat)
    requires total > 0
    ensures var p := RoundedPercent(correct, total).value;
      && -(total as int) <= 2 * (100 * correct - p * total) < total
      && (correct <= total ==> p <= 100)
  {
    var p := RoundedPercent(correct, total).value;
    var a := 200 * correct + total;
    var b := 2 * total;
    assert p == a / b;
    assert a == b * p + a % b && 0 <= a % b < b;
    assert b * p == 2 * (p * total);
    MulAwayFromZero(total, p - 100);
    assert total * (p - 100) == p * total - 100 * total;
  }

  lemma CountCorrectStep(questions: seq<Question>, answers: seq<string>, i: nat)
    requires |questions| == |answers| && i < |answers|
    ensures CountCorrect(questions[..i + 1], answers[..i + 1])
      == CountCorrect(questions[..i], answers[..i])
         + (if ValidateAnswer(answers[i], questions[i].correctTranslation) then 1 else 0)
  {
    assert questions[..i + 1][..i] == questions[..i];
    assert answers[..i + 1][..i] == answers[..i];
  }

  /**
   * `calculateScore`: throws on a length mismatch (never truncating), otherwise
   * counts the answers that validate and rounds the share to a percentage.
   */
  method CalculateScore(questions: seq<Question>, userAnswers: seq<string>)
    returns (r: Outcome<Score>)
    ensures |questions| != |userAnswers| ==>
              r == Throws("Questions and answers length mismatch")
    ensures |questions| == |userAnswers| ==>
              r == Returns(RoundedPercent(CountCorrect(questions, userAnswers), |questions|))
  {
    if |questions| != |userAnswers| {
      return Throws("Questions and answers length mismatch");
    }
    var correctAnswers := 0;
    var i := 0;
    while i < |questions|
      invariant 0 <= i <= |questions|
      invariant correctAnswers == CountCorrect(questions[..i], userAnswers[..i])
    {
      CountCorrectStep(questions, userAnswers, i);
      if ValidateAnswer(userAnswers[i], questions[i].correctTranslation) {
        correctAnswers := correctAnswers + 1;
      }
      i := i + 1;
    }
    assert questions[..i] == questions && userAnswers[..i] == userAnswers;
    return Returns(RoundedPercent(correctAnswers, |questions|));
  }

  /** When every answer validates, all of them count. */
  lemma {:induction false} CountCorrectAll(questions: seq<Question>, answers: seq<string>)
    requires |questions| == |answers|
    requires forall i :: 0 <= i < |answers| ==> ValidateAnswer(answers[i], questions[i].correctTranslation)
    ensures CountCorrect(questions, answers) == |answers|
  {
    if answers != [] {
      var n := |answers| - 1;
      var qs, us := questions[..n], answers[..n];
      forall i | 0 <= i < n
        ensures ValidateAnswer(us[i], qs[i].correctTranslation)
      {
        assert us[i] == answers[i] && qs[i] == questions[i];
      }
      CountCorrectAll(qs, us);
    }
  }

  /** When no answer validates, none counts. */
  lemma {:induction false} CountCorrectNone(questions: seq<Question>, answers: seq<string>)
    requires |questions| == |answers|
    requires forall i :: 0 <= i < |answers| ==> !ValidateAnswer(answers[i], questions[i].correctTranslation)
    ensures CountCorrect(questions, answers) == 0
  {
    if answers != [] {
      var n := |answers| - 1;
      var qs, us := questions[..n], answers[..n];
      forall i | 0 <= i < n
        ensures !ValidateAnswer(us[i], qs[i].correctTranslation)
      {
        assert us[i] == answers[i] && qs[i] == questions[i];
      }
      CountCorrectNone(qs, us);
    }
  }

  /** Rounding n out of n gives 100 and 0 out of n gives 0. */
  lemma RoundedPercentExtremes(n: nat)
    requires n > 0
    ensures RoundedPercent(n, n) == Percent(100)
    ensures RoundedPercent(0, n) == Percent(0)
  {
    QuotientIs(200 * n + n, 2 * n, 100);
    QuotientIs(n, 2 * n, 0);
  }

  /** Multiplying by an integer of size at least one moves at least b away from 0. */
  lemma MulAwayFromZero(b: nat, k: int)
    ensures k >= 1 ==> b * k >= b
    ensures k <= -1 ==> b * k <= -(b as int)
  {
    if k >= 1 {
      MulAtLeast(b, k);
    } else if k <= -1 {
      MulAtLeast(b, -k);
      assert b * k == -(b * -k);
    }
  }

  lemma {:induction false} MulAtLeast(b: nat, k: nat)
    requires k >= 1
    ensures b * k >= b
    decreases k
  {
    if k > 1 {
      MulAtLeast(b, k - 1);
      assert b * k == b * (k - 1) + b;
    }
  }

  /** Integer division is pinned down by the two bounds on the quotient. */
  lemma QuotientIs(a: int, b: int, q: int)
    requires b > 0 && b * q <= a < b * q + b
    ensures a / b == q
  {
    var d := a / b;
    assert b * d + a % b == a && 0 <= a % b < b;
    assert b * (q - d) == b * q - b * d;
    MulAwayFromZero(b, q - d);
  }

  /** For equal, non-empty inputs the score is a percentage in [0, 100]; all
      correct gives 100 and all wrong gives 0. */
  lemma ScoreInRange(questions: seq<Question>, answers: seq<string>)
    requires |questions| == |answers| > 0
    ensures var r := RoundedPercent(CountCorrect(questions, answers), |questions|);
      && r.Percent? && r.value <= 100
      && ((forall i :: 0 <= i < |answers| ==> ValidateAnswer(answers[i], questions[i].correctTranslation))
            ==> r == Percent(100))
      && ((forall i :: 0 <= i < |answers| ==> !ValidateAnswer(answers[i], questions[i].correctTranslation))
            ==> r == Percent(0))
  {
    RoundedPercentIsNearest(CountCorrect(questions, answers), |questions|);
    if forall i :: 0 <= i < |answers| ==> ValidateAnswer(answers[i], questions[i].correctTranslation) {
      CountCorrectAll(questions, answers);
    }
    if forall i :: 0 <= i < |answers| ==> !ValidateAnswer(answers[i], questions[i].correctTranslation) {
      CountCorrectNone(questions, answers);
    }
    RoundedPercentExtremes(|questions|);
  }

  /** Three correct answers out of five score 60. */
  lemma ThreeOfFiveIsSixty()
    ensures RoundedPercent(3, 5) == Percent(60)
  {
  }
}
