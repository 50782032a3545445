/**
 * `ToSnakeCase` of the MySQL user repository: two regular-expression rewrite
 * passes that put an underscore at the word boundaries of a Go identifier,
 * then lower case. The passes are written out as left-to-right scans.
 */
module SnakeCase {
  predicate IsUpper(c: char) { 'A' <= c <= 'Z' }

  predicate IsLower(c: char) { 'a' <= c <= 'z' }

  predicate IsDigit(c: char) { '0' <= c <= '9' }

  /** The string holds no ASCII upper-case letter. */
  predicate NoUpper(s: string)
  {
    forall i :: 0 <= i < |s| ==> !IsUpper(s[i])
  }

  /** `unicode.ToLower` on ASCII letters; every other character is kept. */
  function LowerChar(c: char): (d: char)
    ensures !IsUpper(d)
    ensures IsUpper(c) ==> d as int == c as int - 'A' as int + 'a' as int && IsLower(d)
    ensures !IsUpper(c) ==> d == c
    ensures d == '_' <==> c == '_'
  {
    if IsUpper(c) then (c as int - 'A' as int + 'a' as int) as char else c
  }

  /** `strings.ToLower`, character by character. */
  function ToLower(s: string): (r: string)
    ensures |r| == |s| && NoUpper(r)
    ensures forall i :: 0 <= i < |s| ==> r[i] == LowerChar(s[i])
  {
    seq(|s|, i requires 0 <= i < |s| => LowerChar(s[i]))
  }

  /** The length of the run of lower-case letters that starts `t`: what `[a-z]+` takes greedily. */
  function LowerRun(t: string): (n: nat)
    ensures n <= |t|
    ensures forall i :: 0 <= i < n ==> IsLower(t[i])
    ensures n == |t| || !IsLower(t[n])
  {
    if t != [] && IsLower(t[0]) then 1 + LowerRun(t[1..]) else 0
  }

  /**
   * `regexp.MustCompile("(.)([A-Z][a-z]+)").ReplaceAllString(s, "${1}_${2}")`:
   * scanning from the left, each match (any character but a newline, an
   * upper-case letter, then the longest run of lower-case letters) gets an
   * underscore after its first character, and the scan resumes after it.
   */
  function FirstCapPass(s: string): string
  {
    if |s| < 3 then s
    else if s[0] != '\n' && IsUpper(s[1]) && IsLower(s[2]) then
      var j := 2 + LowerRun(s[2..]);
      [s[0], '_'] + s[1..j] + FirstCapPass(s[j..])
    else
      [s[0]] + FirstCapPass(s[1..])
  }

  /**
   * `regexp.MustCompile("([a-z0-9])([A-Z])").ReplaceAllString(s, "${1}_${2}")`:
   * an underscore between a lower-case letter or digit and the upper-case
   * letter after it; the scan resumes after the pair.
   */
  function AllCapPass(s: string): string
  {
    if |s| < 2 then s
    else if (IsLower(s[0]) || IsDigit(s[0])) && IsUpper(s[1]) then
      [s[0], '_', s[1]] + AllCapPass(s[2..])
    else
      [s[0]] + AllCapPass(s[1..])
  }

  /** `ToSnakeCase(str)`: both passes, then lower case. */
  function ToSnakeCase(str: string): (snake: string)
    ensures NoUpper(snake)
  {
    ToLower(AllCapPass(FirstCapPass(str)))
  }

  /** `s` with every underscore deleted. */
  function Strip(s: string): string
  {
    if s == [] then [] else if s[0] == '_' then Strip(s[1..]) else [s[0]] + Strip(s[1..])
  }

  lemma {:induction false} StripConcat(a: string, b: string)
    ensures Strip(a + b) == Strip(a) + Strip(b)
    decreases |a|
  {
    if a != [] {
      assert (a + b)[1..] == a[1..] + b;
      StripConcat(a[1..], b);
    } else {
      assert a + b == b;
    }
  }

  /** The first pass only inserts underscores. */
  lemma {:induction false} FirstCapPassInsertsUnderscores(s: string)
    ensures Strip(FirstCapPass(s)) == Strip(s)
    decreases |s|
  {
    if |s| >= 3 {
      if s[0] != '\n' && IsUpper(s[1]) && IsLower(s[2]) {
        var j := 2 + LowerRun(s[2..]);
        FirstCapPassInsertsUnderscores(s[j..]);
        StripConcat([s[0], '_'] + s[1..j], FirstCapPass(s[j..]));
        StripConcat([s[0], '_'], s[1..j]);
        StripConcat([s[0]] + s[1..j], s[j..]);
        StripConcat([s[0]], s[1..j]);
        assert Strip([s[0], '_']) == Strip([s[0]]) by {
          assert [s[0], '_'][1..] == ['_'];
        }
        assert s == [s[0]] + s[1..j] + s[j..];
      } else {
        FirstCapPassInsertsUnderscores(s[1..]);
        StripConcat([s[0]], FirstCapPass(s[1..]));
        StripConcat([s[0]], s[1..]);
        assert s == [s[0]] + s[1..];
      }
    }
  }

  /** The second pass only inserts underscores. */
  lemma {:induction false} AllCapPassInsertsUnderscores(s: string)
    ensures Strip(AllCapPass(s)) == Strip(s)
    decreases |s|
  {
    if |s| >= 2 {
      if (IsLower(s[0]) || IsDigit(s[0])) && IsUpper(s[1]) {
        AllCapPassInsertsUnderscores(s[2..]);
        StripConcat([s[0], '_', s[1]], AllCapPass(s[2..]));
        StripConcat([s[0], s[1]], s[2..]);
        assert Strip([s[0], '_', s[1]]) == Strip([s[0], s[1]]) by {
          assert [s[0], '_', s[1]][1..] == ['_', s[1]];
          assert [s[0], s[1]][1..] == [s[1]];
          assert ['_', s[1]][1..] == [s[1]];
        }
        assert s == [s[0], s[1]] + s[2..];
      } else {
        AllCapPassInsertsUnderscores(s[1..]);
        StripConcat([s[0]], AllCapPass(s[1..]));
        StripConcat([s[0]], s[1..]);
        assert s == [s[0]] + s[1..];
      }
    }
  }

  /** Lower-casing neither adds nor removes underscores. */
  lemma {:induction false} StripToLower(s: string)
    ensures Strip(ToLower(s)) == ToLower(Strip(s))
    decreases |s|
  {
    if s != [] {
      StripToLower(s[1..]);
      assert ToLower(s)[1..] == ToLower(s[1..]);
    }
  }

  /** `ToSnakeCase` only inserts underscores: without them, it is the lower-cased input without them. */
  lemma ToSnakeCaseOnlyInsertsUnderscores(str: string)
    ensures Strip(ToSnakeCase(str)) == ToLower(Strip(str))
  {
    FirstCapPassInsertsUnderscores(str);
    AllCapPassInsertsUnderscores(FirstCapPass(str));
    StripToLower(AllCapPass(FirstCapPass(str)));
  }

  /** Without upper-case letters the first pass finds no match. */
  lemma {:induction false} FirstCapPassNoUpper(s: string)
    requires NoUpper(s)
    ensures FirstCapPass(s) == s
    decreases |s|
  {
    if |s| >= 3 {
      FirstCapPassNoUpper(s[1..]);
    }
  }

  /** Without upper-case letters the second pass finds no match. */
  lemma {:induction false} AllCapPassNoUpper(s: string)
    requires NoUpper(s)
    ensures AllCapPass(s) == s
    decreases |s|
  {
    if |s| >= 2 {
      AllCapPassNoUpper(s[1..]);
    }
  }

  /** On input with no upper-case letter, `ToSnakeCase` changes nothing. */
  lemma ToSnakeCaseIdentity(str: string)
    requires NoUpper(str)
    ensures ToSnakeCase(str) == str
  {
    FirstCapPassNoUpper(str);
    AllCapPassNoUpper(str);
    assert ToLower(str) == str;
  }

  /** `ToSnakeCase` is idempotent. */
  lemma ToSnakeCaseIdempotent(str: string)
    ensures ToSnakeCase(ToSnakeCase(str)) == ToSnakeCase(str)
  {
    ToSnakeCaseIdentity(ToSnakeCase(str));
  }

  // The steps of the two passes, used to evaluate them on the field names.

  /** The first pass copies a prefix at none of whose positions a match can start. */
  lemma {:induction false} FirstCapPassSkip(p: string, t: string)
    requires forall i :: 1 <= i < |p| ==> !IsUpper(p[i])
    requires p != [] && t != [] ==> !IsUpper(t[0])
    ensures FirstCapPass(p + t) == p + FirstCapPass(t)
    decreases |p|
  {
    if p != [] {
      var s := p + t;
      assert s[1..] == p[1..] + t;
      if |s| >= 3 {
        assert !IsUpper(s[1]);
      }
      FirstCapPassSkip(p[1..], t);
      assert p == [p[0]] + p[1..];
    } else {
      assert p + t == t;
    }
  }

  /** Without lower-case letters the first pass finds no match. */
  lemma {:induction false} FirstCapPassNoLower(s: string)
    requires forall i :: 0 <= i < |s| ==> !IsLower(s[i])
    ensures FirstCapPass(s) == s
    decreases |s|
  {
    if |s| >= 3 {
      FirstCapPassNoLower(s[1..]);
    }
  }

  /** The first pass matches a character followed by a capitalised word. */
  lemma FirstCapPassMatch(c: char, w: string, rest: string)
    requires c != '\n' && |w| >= 2 && IsUpper(w[0])
    requires forall i :: 1 <= i < |w| ==> IsLower(w[i])
    requires rest == [] || !IsLower(rest[0])
    ensures FirstCapPass([c] + w + rest) == [c, '_'] + w + FirstCapPass(rest)
  {
    var s := [c] + w + rest;
    LowerRunOf(w[1..], rest);
    assert s[2..] == w[1..] + rest;
    assert s[1..|w| + 1] == w;
    assert s[|w| + 1..] == rest;
  }

  /** The lower-case run of a lower-case word ends where the word does. */
  lemma {:induction false} LowerRunOf(w: string, rest: string)
    requires forall i :: 0 <= i < |w| ==> IsLower(w[i])
    requires rest == [] || !IsLower(rest[0])
    ensures LowerRun(w + rest) == |w|
    decreases |w|
  {
    if w != [] {
      assert (w + rest)[1..] == w[1..] + rest;
      LowerRunOf(w[1..], rest);
    } else {
      assert w + rest == rest;
    }
  }

  /** Where the second pass finds a match: a lower-case letter or digit, then an upper-case letter. */
  predicate PairMatch(a: char, b: char)
  {
    (IsLower(a) || IsDigit(a)) && IsUpper(b)
  }

  /** The second pass copies a prefix at none of whose positions a match starts. */
  lemma {:induction false} AllCapPassSkip(p: string, t: string)
    requires forall i :: 0 <= i < |p| - 1 ==> !PairMatch(p[i], p[i + 1])
    requires p != [] && t != [] ==> !PairMatch(p[|p| - 1], t[0])
    ensures AllCapPass(p + t) == p + AllCapPass(t)
    decreases |p|
  {
    var s := p + t;
    if p == [] {
      assert s == t;
    } else if |s| < 2 {
      assert t == [] && s == p;
    } else {
      var q := p[1..];
      assert s[1..] == q + t;
      assert s[1] == if |p| >= 2 then p[1] else t[0];
      assert !PairMatch(s[0], s[1]);
      assert AllCapPass(s) == [s[0]] + AllCapPass(q + t);
      forall i | 0 <= i < |q| - 1 ensures !PairMatch(q[i], q[i + 1]) {
        assert q[i] == p[i + 1] && q[i + 1] == p[i + 2];
      }
      AllCapPassSkip(q, t);
      assert p == [p[0]] + q;
    }
  }

  /** Lower case distributes over concatenation. */
  lemma ToLowerConcat(a: string, b: string)
    ensures ToLower(a + b) == ToLower(a) + ToLower(b)
  {
    assert forall i :: 0 <= i < |a + b| ==> ToLower(a + b)[i] == (ToLower(a) + ToLower(b))[i];
  }

  /** An upper-case letter followed by one or more lower-case letters. */
  predicate IsCapitalised(w: string)
  {
    |w| >= 2 && IsUpper(w[0]) && forall i :: 1 <= i < |w| ==> IsLower(w[i])
  }

  /** One or more upper-case letters. */
  predicate IsAcronym(a: string)
  {
    a != [] && forall i :: 0 <= i < |a| ==> IsUpper(a[i])
  }

  /** A capitalised word is only lower-cased. */
  lemma SnakeCaseWord(w: string)
    requires IsCapitalised(w)
    ensures ToSnakeCase(w) == ToLower(w)
  {
    FirstCapPassSkip(w, []);
    AllCapPassSkip(w, []);
    assert w + [] == w;
  }

  /** An acronym is only lower-cased. */
  lemma SnakeCaseAcronym(a: string)
    requires IsAcronym(a)
    ensures ToSnakeCase(a) == ToLower(a)
  {
    FirstCapPassNoLower(a);
    AllCapPassSkip(a, []);
    assert a + [] == a;
  }

  /** Two capitalised words are joined by one underscore. */
  lemma SnakeCaseTwoWords(w1: string, w2: string)
    requires IsCapitalised(w1) && IsCapitalised(w2)
    ensures ToSnakeCase(w1 + w2) == ToLower(w1) + "_" + ToLower(w2)
  {
    var joined := FirstCapPassTwoWords(w1, w2);
    AllCapPassSkip(joined, []);
    assert joined + [] == joined;
    ToLowerConcat(w1 + "_", w2);
    ToLowerConcat(w1, "_");
  }

  lemma FirstCapPassTwoWords(w1: string, w2: string) returns (joined: string)
    requires IsCapitalised(w1) && IsCapitalised(w2)
    ensures joined == w1 + "_" + w2 && FirstCapPass(w1 + w2) == joined
  {
    var n := |w1| - 1;
    var head, tail: string := w1[..n], [w1[n]] + w2;
    assert w1 + w2 == head + tail;
    FirstCapPassSkip(head, tail);
    assert tail == [w1[n]] + w2 + [];
    FirstCapPassMatch(w1[n], w2, []);
    joined := w1 + "_" + w2;
    assert head + ([w1[n], '_'] + w2 + []) == joined;
  }

  /** Two capitalised words and an acronym are joined by underscores. */
  lemma SnakeCaseTwoWordsAcronym(w1: string, w2: string, a: string)
    requires IsCapitalised(w1) && IsCapitalised(w2) && IsAcronym(a)
    ensures ToSnakeCase(w1 + w2 + a) == ToLower(w1) + "_" + ToLower(w2) + "_" + ToLower(a)
  {
    var joined := FirstCapPassTwoWordsAcronym(w1, w2, a);
    var snake := AllCapPassTwoWordsAcronym(w1, w2, a);
    ToLowerConcat(w1 + "_" + w2 + "_", a);
    ToLowerConcat(w1 + "_" + w2, "_");
    ToLowerConcat(w1 + "_", w2);
    ToLowerConcat(w1, "_");
  }

  lemma FirstCapPassTwoWordsAcronym(w1: string, w2: string, a: string) returns (joined: string)
    requires IsCapitalised(w1) && IsCapitalised(w2) && IsAcronym(a)
    ensures joined == w1 + "_" + w2 + a && FirstCapPass(w1 + w2 + a) == joined
  {
    var n := |w1| - 1;
    var head, tail: string := w1[..n], [w1[n]] + w2 + a;
    assert w1 + w2 + a == head + tail;
    FirstCapPassSkip(head, tail);
    FirstCapPassMatch(w1[n], w2, a);
    FirstCapPassNoLower(a);
    joined := w1 + "_" + w2 + a;
    assert head + ([w1[n], '_'] + w2 + a) == joined;
  }

  /** A capitalised word, `_` and the start of another leave the second pass nothing to match. */
  lemma JoinedWordsNoPair(w1: string, w2: string)
    requires IsCapitalised(w1) && IsCapitalised(w2)
    ensures var head := w1 + "_" + w2[..|w2| - 1];
      forall i :: 0 <= i < |head| - 1 ==> !PairMatch(head[i], head[i + 1])
  {
    var head := w1 + "_" + w2[..|w2| - 1];
    forall i | 0 <= i < |head| - 1 ensures !PairMatch(head[i], head[i + 1]) {
      if i + 1 < |w1| {
        assert head[i + 1] == w1[i + 1];
      } else if i + 1 == |w1| {
        assert head[i + 1] == '_';
      } else if i == |w1| {
        assert head[i] == '_';
      } else {
        assert head[i + 1] == w2[i - |w1|];
      }
    }
  }

  lemma AllCapPassTwoWordsAcronym(w1: string, w2: string, a: string) returns (snake: string)
    requires IsCapitalised(w1) && IsCapitalised(w2) && IsAcronym(a)
    ensures snake == w1 + "_" + w2 + "_" + a && AllCapPass(w1 + "_" + w2 + a) == snake
  {
    var m := |w2| - 1;
    var head, rest := w1 + "_" + w2[..m], a[1..];
    var tail := [w2[m], a[0]] + rest;
    assert w2 == w2[..m] + [w2[m]] && a == [a[0]] + rest;
    JoinedWordsNoPair(w1, w2);
    assert head[|head| - 1] == w2[m - 1];
    assert w1 + "_" + w2 + a == head + tail;
    AllCapPassSkip(head, tail);
    AllCapPassSkip(rest, []);
    assert AllCapPass(tail) == [w2[m], '_', a[0]] + rest by {
      assert tail[2..] == rest && rest + [] == rest;
    }
    snake := w1 + "_" + w2 + "_" + a;
    assert head + ([w2[m], '_', a[0]] + rest) == snake;
  }
}
