/**
 * String helpers of the naming and method stages: splitting on a separator,
 * and rewriting a snake_case identifier (`marketplace_listing`) into
 * PascalCase (`MarketplaceListing`) or lowerCamelCase (`accountId`).
 */
module Casing {

  predicate IsLower(c: char) { 'a' <= c <= 'z' }

  predicate IsUpper(c: char) { 'A' <= c <= 'Z' }

  predicate IsDigit(c: char) { '0' <= c <= '9' }

  /** ASCII upper-casing; every other character is left alone. */
  function ToUpper(c: char): (u: char)
    ensures IsLower(c) ==> IsUpper(u)
    ensures !IsLower(c) ==> u == c
  {
    if IsLower(c) then (c as int - 32) as char else c
  }

  /** ASCII lower-casing; every other character is left alone. */
  function ToLower(c: char): (l: char)
    ensures IsUpper(c) ==> IsLower(l) && ToUpper(l) == c
    ensures !IsUpper(c) ==> l == c
  {
    if IsUpper(c) then (c as int + 32) as char else c
  }

  // ---------------------------------------------------------------------------
  // Splitting on a separator

  /**
   * The pieces of `s` between occurrences of `sep`, in order, empty pieces
   * included: "" gives [""], "/a" gives ["", "a"], "a//b" gives ["a", "", "b"].
   */
  function Split(s: string, sep: char): (parts: seq<string>)
    ensures |parts| >= 1
    ensures forall i :: 0 <= i < |parts| ==> sep !in parts[i]
    decreases |s|
  {
    if s == [] then [""]
    else
      var rest := Split(s[1..], sep);
      if s[0] == sep then [""] + rest
      else [[s[0]] + rest[0]] + rest[1..]
  }

  /** The pieces glued back together with `sep` between neighbours. */
  function Join(parts: seq<string>, sep: char): string
    requires |parts| >= 1
    decreases |parts|
  {
    if |parts| == 1 then parts[0] else parts[0] + [sep] + Join(parts[1..], sep)
  }

  /** Splitting loses nothing: joining the pieces gives back the string. */
  lemma {:induction false} JoinSplit(s: string, sep: char)
    ensures Join(Split(s, sep), sep) == s
    decreases |s|
  {
    if s != [] {
      var rest := Split(s[1..], sep);
      JoinSplit(s[1..], sep);
      if s[0] == sep {
        assert Split(s, sep) == [""] + rest;
        assert s == [sep] + s[1..];
      } else {
        var parts := Split(s, sep);
        assert parts == [[s[0]] + rest[0]] + rest[1..];
        if |rest| == 1 {
          assert s == [s[0]] + rest[0];
        } else {
          assert parts[1..] == rest[1..];
          assert Join(rest, sep) == rest[0] + [sep] + Join(rest[1..], sep);
          assert s == [s[0]] + s[1..];
        }
      }
    }
  }

  /** Splitting a string made of two pieces glued by `sep` splits each piece. */
  lemma {:induction false} SplitAppend(a: string, b: string, sep: char)
    ensures Split(a + [sep] + b, sep) == Split(a, sep) + Split(b, sep)
    decreases |a|
  {
    var s := a + [sep] + b;
    if a == [] {
      assert s[1..] == b;
    } else {
      assert s[1..] == a[1..] + [sep] + b;
      SplitAppend(a[1..], b, sep);
    }
  }

  /** A string without the separator is a single piece. */
  lemma {:induction false} SplitWithoutSeparator(s: string, sep: char)
    requires sep !in s
    ensures Split(s, sep) == [s]
    decreases |s|
  {
    if s != [] {
      assert sep !in s[1..];
      SplitWithoutSeparator(s[1..], sep);
      assert s == [s[0]] + s[1..];
    }
  }

  /** Joining loses nothing: pieces free of `sep` are what splitting their join gives. */
  lemma {:induction false} SplitJoin(parts: seq<string>, sep: char)
    requires |parts| >= 1
    requires forall i :: 0 <= i < |parts| ==> sep !in parts[i]
    ensures Split(Join(parts, sep), sep) == parts
    decreases |parts|
  {
    SplitWithoutSeparator(parts[0], sep);
    if |parts| > 1 {
      var rest := parts[1..];
      forall i | 0 <= i < |rest|
        ensures sep !in rest[i]
      {
        assert rest[i] == parts[i + 1];
      }
      SplitJoin(rest, sep);
      var tail := Join(rest, sep);
      assert Join(parts, sep) == parts[0] + [sep] + tail;
      SplitAppend(parts[0], tail, sep);
      assert parts == [parts[0]] + rest;
    }
  }

  // ---------------------------------------------------------------------------
  // snake_case to PascalCase and lowerCamelCase

  /** `w` with its first character upper-cased. */
  function Capitalize(w: string): (r: string)
    ensures |r| == |w|
    ensures w != [] ==> r[0] == ToUpper(w[0]) && r[1..] == w[1..]
  {
    if w == [] then [] else [ToUpper(w[0])] + w[1..]
  }

  /**
   * Drops every underscore and upper-cases the character after it; the first
   * character is upper-cased too when `upperNext` holds.
   */
  function Camelize(s: string, upperNext: bool): (r: string)
    ensures '_' !in r
    ensures |r| <= |s|
    decreases |s|
  {
    if s == [] then []
    else
      var rest := Camelize(s[1..], s[0] == '_');
      if s[0] == '_' then rest else [if upperNext then ToUpper(s[0]) else s[0]] + rest
  }

  /** `marketplace_listing` becomes `MarketplaceListing`. */
  function SnakeToPascal(s: string): (r: string)
    ensures '_' !in r
  {
    Camelize(s, true)
  }

  /** `account_id` becomes `accountId`; the first word keeps its casing. */
  function SnakeToCamel(s: string): (r: string)
    ensures '_' !in r
  {
    Camelize(s, false)
  }

  lemma {:induction false} CamelizeAppend(a: string, b: string, upperNext: bool)
    ensures Camelize(a + "_" + b, upperNext) == Camelize(a, upperNext) + Camelize(b, true)
    decreases |a|
  {
    if a == [] {
      assert a + "_" + b == "_" + b;
      assert ("_" + b)[1..] == b;
    } else {
      assert (a + "_" + b)[0] == a[0];
      assert (a + "_" + b)[1..] == a[1..] + "_" + b;
      if a[0] == '_' {
        CamelizeAppend(a[1..], b, true);
      } else {
        CamelizeAppend(a[1..], b, false);
      }
    }
  }

  /** Words joined by an underscore come out as their PascalCase forms, concatenated. */
  lemma PascalOfJoinedWords(a: string, b: string)
    ensures SnakeToPascal(a + "_" + b) == SnakeToPascal(a) + SnakeToPascal(b)
  {
    CamelizeAppend(a, b, true);
  }

  /** lowerCamelCase keeps the first word and capitalises the next. */
  lemma CamelOfJoinedWords(a: string, b: string)
    ensures SnakeToCamel(a + "_" + b) == SnakeToCamel(a) + SnakeToPascal(b)
  {
    CamelizeAppend(a, b, false);
  }

  // A reference definition by words: split on '_', capitalise, concatenate.

  function CapitalizeAll(words: seq<string>): string
  {
    if words == [] then "" else Capitalize(words[0]) + CapitalizeAll(words[1..])
  }

  /** PascalCase by words: every word of `s` capitalised, in order. */
  function PascalByWords(s: string): string
  {
    CapitalizeAll(Split(s, '_'))
  }

  /** lowerCamelCase by words: the first word as it is, every later word capitalised. */
  function CamelByWords(s: string): string
  {
    var words := Split(s, '_');
    words[0] + CapitalizeAll(words[1..])
  }

  lemma {:induction false} CamelizeByWords(s: string, upperNext: bool)
    ensures var words := Split(s, '_');
            Camelize(s, upperNext)
            == (if upperNext then Capitalize(words[0]) else words[0]) + CapitalizeAll(words[1..])
    decreases |s|
  {
    if s != [] {
      var rest := Split(s[1..], '_');
      if s[0] == '_' {
        CamelizeByWords(s[1..], true);
        assert Split(s, '_')[1..] == rest;
        assert CapitalizeAll(rest) == Capitalize(rest[0]) + CapitalizeAll(rest[1..]);
      } else {
        CamelizeByWords(s[1..], false);
        var w := [s[0]] + rest[0];
        assert Split(s, '_') == [w] + rest[1..];
        assert Capitalize(w) == [ToUpper(s[0])] + rest[0];
      }
    }
  }

  /** The character-level rewrite agrees with the word-by-word definition. */
  lemma PascalAgreesWithWords(s: string)
    ensures SnakeToPascal(s) == PascalByWords(s)
  {
    var words := Split(s, '_');
    CamelizeByWords(s, true);
    assert CapitalizeAll(words) == Capitalize(words[0]) + CapitalizeAll(words[1..]);
  }

  /** The character-level rewrite agrees with the word-by-word definition. */
  lemma CamelAgreesWithWords(s: string)
    ensures SnakeToCamel(s) == CamelByWords(s)
  {
    CamelizeByWords(s, false);
  }

  lemma {:induction false} CamelizeUpperIsCapitalized(s: string)
    ensures Capitalize(Camelize(s, true)) == Camelize(s, true)
    decreases |s|
  {
    if s != [] && s[0] == '_' {
      CamelizeUpperIsCapitalized(s[1..]);
    }
  }

  /** The PascalCase form is the lowerCamelCase form with its first character upper-cased. */
  lemma PascalIsCapitalizedCamel(s: string)
    ensures SnakeToPascal(s) == Capitalize(SnakeToCamel(s))
  {
    if s != [] && s[0] == '_' {
      CamelizeUpperIsCapitalized(s[1..]);
    }
  }

  /** A name without underscores is left as it is by the lowerCamelCase rewrite. */
  lemma {:induction false} CamelKeepsNameWithoutUnderscore(s: string)
    requires '_' !in s
    ensures SnakeToCamel(s) == s
    decreases |s|
  {
    if s != [] {
      assert '_' !in s[1..];
      CamelKeepsNameWithoutUnderscore(s[1..]);
    }
  }

  /** A single word only has its first character upper-cased by the PascalCase rewrite. */
  lemma PascalOfWord(w: string)
    requires '_' !in w
    ensures SnakeToPascal(w) == Capitalize(w)
  {
    PascalIsCapitalizedCamel(w);
    CamelKeepsNameWithoutUnderscore(w);
  }

  /** Two words joined by an underscore become the two words capitalised. */
  lemma PascalOfTwoWords(a: string, b: string)
    requires '_' !in a && '_' !in b
    ensures SnakeToPascal(a + "_" + b) == Capitalize(a) + Capitalize(b)
  {
    PascalOfJoinedWords(a, b);
    PascalOfWord(a);
    PascalOfWord(b);
  }

  /** Two words joined by an underscore become the first word and the second capitalised. */
  lemma CamelOfTwoWords(a: string, b: string)
    requires '_' !in a && '_' !in b
    ensures SnakeToCamel(a + "_" + b) == a + Capitalize(b)
  {
    CamelOfJoinedWords(a, b);
    CamelKeepsNameWithoutUnderscore(a);
    PascalOfWord(b);
  }

  // ---------------------------------------------------------------------------
  // Back from PascalCase / lowerCamelCase to snake_case

  /**
   * Every character is a lower-case letter or a digit, or an underscore
   * followed by a lower-case letter: the part of a snake_case identifier
   * after its first character.
   */
  predicate IsSnakeTail(s: string)
  {
    forall i :: 0 <= i < |s| ==>
      IsLower(s[i]) || IsDigit(s[i]) || (s[i] == '_' && i + 1 < |s| && IsLower(s[i + 1]))
  }

  /**
   * A well-formed snake_case identifier: lower-case words of letters and digits,
   * each starting with a letter, separated by single underscores.
   */
  predicate IsSnakeCase(s: string)
  {
    s != [] && IsLower(s[0]) && IsSnakeTail(s)
  }

  /**
   * Puts an underscore before every upper-case letter and lower-cases it:
   * `accountId` becomes `account_id`.
   */
  function CamelToSnake(t: string): string
    decreases |t|
  {
    if t == [] then []
    else if IsUpper(t[0]) then ['_', ToLower(t[0])] + CamelToSnake(t[1..])
    else [t[0]] + CamelToSnake(t[1..])
  }

  /** `MarketplaceListing` becomes `marketplace_listing`. */
  function PascalToSnake(t: string): string
  {
    if t == [] then [] else [ToLower(t[0])] + CamelToSnake(t[1..])
  }

  lemma SnakeTailSuffix(s: string, k: nat)
    requires IsSnakeTail(s) && k <= |s|
    ensures IsSnakeTail(s[k..])
  {
    forall i | 0 <= i < |s[k..]|
      ensures IsLower(s[k..][i]) || IsDigit(s[k..][i])
              || (s[k..][i] == '_' && i + 1 < |s[k..]| && IsLower(s[k..][i + 1]))
    {
      var j := i + k;
      assert s[k..][i] == s[j];
      assert 0 <= j < |s|;
      assert IsLower(s[j]) || IsDigit(s[j]) || (s[j] == '_' && j + 1 < |s| && IsLower(s[j + 1]));
      if s[j] == '_' {
        assert s[k..][i + 1] == s[i + k + 1];
      }
    }
  }

  lemma {:induction false} CamelToSnakeInvertsCamelize(s: string)
    requires IsSnakeTail(s)
    ensures CamelToSnake(Camelize(s, false)) == s
    decreases |s|
  {
    if s != [] {
      if s[0] == '_' {
        assert 1 < |s| && IsLower(s[1]) by {
          assert IsLower(s[0]) || IsDigit(s[0]) || (s[0] == '_' && 1 < |s| && IsLower(s[1]));
        }
        SnakeTailSuffix(s, 2);
        CamelToSnakeInvertsCamelize(s[2..]);
        assert s[1..][1..] == s[2..];
        assert Camelize(s, false) == [ToUpper(s[1])] + Camelize(s[2..], false);
        assert s == ['_', s[1]] + s[2..];
      } else {
        SnakeTailSuffix(s, 1);
        CamelToSnakeInvertsCamelize(s[1..]);
        assert s == [s[0]] + s[1..];
      }
    }
  }

  /** lowerCamelCase loses nothing on a well-formed snake_case identifier. */
  lemma CamelRoundTrip(s: string)
    requires IsSnakeCase(s)
    ensures CamelToSnake(SnakeToCamel(s)) == s
  {
    CamelToSnakeInvertsCamelize(s);
  }

  /** PascalCase loses nothing on a well-formed snake_case identifier. */
  lemma PascalRoundTrip(s: string)
    requires IsSnakeCase(s)
    ensures PascalToSnake(SnakeToPascal(s)) == s
  {
    SnakeTailSuffix(s, 1);
    CamelToSnakeInvertsCamelize(s[1..]);
    assert s == [s[0]] + s[1..];
  }

  /** Two distinct snake_case identifiers never collide in PascalCase. */
  lemma PascalInjective(s: string, t: string)
    requires IsSnakeCase(s) && IsSnakeCase(t)
    requires SnakeToPascal(s) == SnakeToPascal(t)
    ensures s == t
  {
    PascalRoundTrip(s);
    PascalRoundTrip(t);
  }
}
