/**
 * The field-name converters of src/utils/ParserUtils.ts: snake_case keys of
 * the remote API to camelCase keys of the client, and back.
 *
 * Strings are sequences of characters and case mapping is ASCII only:
 * `toUpperCase` and `toLowerCase` change the letters a-z and A-Z and leave
 * every other character as it is. A plain object is the sequence of its
 * entries, in the order `Object.entries` lists them.
 */
module ParserUtils {
  import opened Wrappers

  // ---------------------------------------------------------------------------
  // Characters
  // ---------------------------------------------------------------------------

  predicate IsUpper(c: char) { 'A' <= c <= 'Z' }

  predicate IsLower(c: char) { 'a' <= c <= 'z' }

  /** `toUpperCase` on one character. */
  function ToUpper(c: char): (u: char)
    ensures IsLower(c) ==> IsUpper(u) && u as int == c as int - 32
    ensures !IsLower(c) ==> u == c
  {
    if IsLower(c) then (c as int - 32) as char else c
  }

  /** `toLowerCase` on one character; it undoes `ToUpper` on upper-case letters. */
  function ToLower(c: char): (l: char)
    ensures IsUpper(c) ==> IsLower(l) && l as int == c as int + 32 && ToUpper(l) == c
    ensures !IsUpper(c) ==> l == c
  {
    if IsUpper(c) then (c as int + 32) as char else c
  }

  lemma {:induction false} LowerOfUpper(c: char)
    requires IsLower(c)
    ensures ToLower(ToUpper(c)) == c
  {
  }

  // ---------------------------------------------------------------------------
  // Counting
  // ---------------------------------------------------------------------------

  /** Number of occurrences of `c` in `s`. */
  function Count(s: string, c: char): nat
  {
    if s == [] then 0 else (if s[0] == c then 1 else 0) + Count(s[1..], c)
  }

  lemma {:induction false} CountAbsent(s: string, c: char)
    requires c !in s
    ensures Count(s, c) == 0
  {
    if s != [] {
      CountAbsent(s[1..], c);
    }
  }

  /** Number of upper-case letters in `s`. */
  function UpperCount(s: string): nat
  {
    if s == [] then 0 else (if IsUpper(s[0]) then 1 else 0) + UpperCount(s[1..])
  }

  /** `s` has no upper-case letter, i.e. `s.match(/[A-Z]/) === null`. */
  predicate NoUpper(s: string)
  {
    forall i :: 0 <= i < |s| ==> !IsUpper(s[i])
  }

  // ---------------------------------------------------------------------------
  // toCamelCase
  // ---------------------------------------------------------------------------

  /** `Array.prototype.join('_')`. */
  function Join(tokens: seq<string>): string
  {
    if tokens == [] then []
    else if |tokens| == 1 then tokens[0]
    else tokens[0] + "_" + Join(tokens[1..])
  }

  /**
   * `String.prototype.split('_')`: the pieces between the underscores, one
   * more than there are underscores, none holding an underscore; joining
   * them with '_' gives the input back.
   */
  function Split(s: string): (tokens: seq<string>)
    ensures |tokens| == Count(s, '_') + 1
    ensures forall i :: 0 <= i < |tokens| ==> '_' !in tokens[i]
    ensures Join(tokens) == s
  {
    if s == [] then [[]]
    else
      var rest := Split(s[1..]);
      if s[0] == '_' then
        assert ([[]] + rest)[1..] == rest;
        [[]] + rest
      else
        assert ([[s[0]] + rest[0]] + rest[1..])[1..] == rest[1..];
        [[s[0]] + rest[0]] + rest[1..]
  }

  /** `upperCasedTokens.join('')`. */
  function Concat(tokens: seq<string>): string
  {
    if tokens == [] then [] else tokens[0] + Concat(tokens[1..])
  }

  /**
   * `t.toUpperCase()[0].concat(t.slice(1, t.length))`: `None` for the empty
   * token, where `[0]` is `undefined` and calling `concat` on it throws.
   */
  function UpperCaseFirst(t: string): (r: Option<string>)
    ensures r.None? <==> t == []
    ensures r.Some? ==> |r.value| == |t| && r.value[0] == ToUpper(t[0]) && r.value[1..] == t[1..]
  {
    if t == [] then None else Some([ToUpper(t[0])] + t[1..])
  }

  /** The `map` over the tokens after the first: `None` once one of them throws. */
  function UpperCaseTokens(tokens: seq<string>): Option<seq<string>>
  {
    if tokens == [] then Some([])
    else
      match (UpperCaseFirst(tokens[0]), UpperCaseTokens(tokens[1..]))
      case (Some(t), Some(ts)) => Some([t] + ts)
      case _ => None
  }

  /**
   * `toCamelCase`: split at '_', keep the first token, upper-case the first
   * character of every later token, and concatenate. `None` models the
   * TypeError thrown for an empty token after the first. A text without '_'
   * is a single token and comes back unchanged.
   */
  function ToCamelCase(snakeText: string): (r: Option<string>)
    ensures '_' !in snakeText ==> r == Some(snakeText)
  {
    var tokens := Split(snakeText);
    assert '_' !in snakeText ==> |tokens| == 1 by {
      if '_' !in snakeText { CountAbsent(snakeText, '_'); }
    }
    if |tokens| == 1 then Some(tokens[0])
    else
      match UpperCaseTokens(tokens[1..])
      case None => None
      case Some(rest) => Some(Concat([tokens[0]] + rest))
  }

  /**
   * Character by character reading of `ToCamelCase`: every '_' is dropped and
   * the character after it upper-cased; a '_' at the end or before another
   * '_' has no character to upper-case.
   */
  function CamelCaseByChars(s: string): (r: Option<string>)
    ensures r.Some? ==> '_' !in r.value && |r.value| == |s| - Count(s, '_')
  {
    if s == [] then Some([])
    else if s[0] != '_' then
      match CamelCaseByChars(s[1..])
      case None => None
      case Some(t) => Some([s[0]] + t)
    else if |s| == 1 || s[1] == '_' then None
    else
      assert s[1..][1..] == s[2..];
      match CamelCaseByChars(s[2..])
      case None => None
      case Some(t) => Some([ToUpper(s[1])] + t)
  }

  /** `s` has an empty token after its first one: a '_' at the end or before another '_'. */
  predicate HasEmptyLaterToken(s: string)
  {
    exists i :: 0 <= i < |s| && s[i] == '_' && (i + 1 == |s| || s[i + 1] == '_')
  }

  /** Every '_' of `s` is followed by a lower-case letter. */
  predicate LowerAfterUnderscores(s: string)
  {
    forall i :: 0 <= i < |s| && s[i] == '_' ==> i + 1 < |s| && IsLower(s[i + 1])
  }

  /** What `ToCamelCase` computes from the tokens of `s`, once the one-token shortcut is set aside. */
  function CamelCaseOfTokens(s: string): Option<string>
  {
    match UpperCaseTokens(Split(s)[1..])
    case None => None
    case Some(rest) => Some(Split(s)[0] + Concat(rest))
  }

  /** A leading character other than '_' joins the first token. */
  lemma SplitCons(s: string)
    requires s != [] && s[0] != '_'
    ensures Split(s)[0] == [s[0]] + Split(s[1..])[0]
    ensures Split(s)[1..] == Split(s[1..])[1..]
  {
    var r := Split(s[1..]);
    assert Split(s) == [[s[0]] + r[0]] + r[1..];
    assert ([[s[0]] + r[0]] + r[1..])[1..] == r[1..];
  }

  lemma {:induction false} SplitThenCamelCase(s: string)
    ensures CamelCaseByChars(s) == CamelCaseOfTokens(s)
    decreases |s|, 1
  {
    if s == [] {
      assert Split(s) == [[]] && Split(s)[1..] == [];
      assert UpperCaseTokens(Split(s)[1..]) == Some([]) && Concat([]) == [];
      assert CamelCaseOfTokens(s) == Some([] + []);
      assert CamelCaseByChars(s) == Some([]);
      assert CamelCaseByChars(s) == CamelCaseOfTokens(s);
    } else if s[0] != '_' {
      SplitThenCamelCase(s[1..]);
      SplitCons(s);
      var r := Split(s[1..]);
      match UpperCaseTokens(r[1..])
      case None =>
        assert CamelCaseByChars(s) == CamelCaseOfTokens(s);
      case Some(rest) =>
        assert [s[0]] + (r[0] + Concat(rest)) == ([s[0]] + r[0]) + Concat(rest);
        assert CamelCaseByChars(s) == CamelCaseOfTokens(s);
    } else {
      UnderscoreThenCamelCase(s);
    }
  }

  lemma {:induction false} UnderscoreThenCamelCase(s: string)
    requires s != [] && s[0] == '_'
    ensures CamelCaseByChars(s) == CamelCaseOfTokens(s)
    decreases |s|, 0
  {
    var r := Split(s[1..]);
    assert Split(s)[1..] == r && Split(s)[0] == [];
    if |s| == 1 || s[1] == '_' {
      assert r[0] == [];
    } else {
      assert s[1..][1..] == s[2..];
      SplitThenCamelCase(s[2..]);
      SplitCons(s[1..]);
      var r2 := Split(s[2..]);
      var first := [ToUpper(s[1])] + r2[0];
      assert UpperCaseFirst(r[0]) == Some(first);
      match UpperCaseTokens(r2[1..])
      case None =>
      case Some(rest) =>
        assert UpperCaseTokens(r) == Some([first] + rest);
        assert Concat([first] + rest) == first + Concat(rest);
        assert [ToUpper(s[1])] + (r2[0] + Concat(rest)) == [] + Concat([first] + rest);
    }
  }

  /** The token-based `ToCamelCase` and the character-based reading agree on every input. */
  lemma {:induction false} CamelCaseAgreesWithChars(s: string)
    ensures ToCamelCase(s) == CamelCaseByChars(s)
  {
    SplitThenCamelCase(s);
    var tokens := Split(s);
    if |tokens| == 1 {
      assert tokens[1..] == [];
      assert tokens[0] + Concat([]) == tokens[0];
    } else {
      match UpperCaseTokens(tokens[1..])
      case None =>
      case Some(rest) =>
        assert Concat([tokens[0]] + rest) == tokens[0] + Concat(rest);
    }
  }

  /** camelCase output holds no '_' and is shorter than the input by the number of '_'. */
  lemma {:induction false} ToCamelCaseOutput(s: string)
    ensures ToCamelCase(s).Some? ==>
      '_' !in ToCamelCase(s).value && |ToCamelCase(s).value| == |s| - Count(s, '_')
  {
    CamelCaseAgreesWithChars(s);
  }

  lemma {:induction false} UpperCaseTokensFails(tokens: seq<string>)
    ensures UpperCaseTokens(tokens).None? <==> exists i :: 0 <= i < |tokens| && tokens[i] == []
  {
    if tokens != [] {
      UpperCaseTokensFails(tokens[1..]);
      if tokens[0] != [] && UpperCaseTokens(tokens[1..]).None? {
        var i :| 0 <= i < |tokens[1..]| && tokens[1..][i] == [];
        assert tokens[i + 1] == [];
      }
      if exists i :: 0 <= i < |tokens| && tokens[i] == [] {
        var i :| 0 <= i < |tokens| && tokens[i] == [];
        if i > 0 {
          assert tokens[1..][i - 1] == [];
        }
      }
    }
  }

  /** `toCamelCase` throws exactly when a token after the first is empty. */
  lemma {:induction false} ToCamelCaseThrows(s: string)
    ensures ToCamelCase(s).None? <==> exists i :: 1 <= i < |Split(s)| && Split(s)[i] == []
  {
    var tokens := Split(s);
    if |tokens| > 1 {
      assert ToCamelCase(s).None? <==> UpperCaseTokens(tokens[1..]).None?;
      UpperCaseTokensFails(tokens[1..]);
      if exists i :: 1 <= i < |tokens| && tokens[i] == [] {
        var i :| 1 <= i < |tokens| && tokens[i] == [];
        assert tokens[1..][i - 1] == [];
      }
      if UpperCaseTokens(tokens[1..]).None? {
        var j :| 0 <= j < |tokens[1..]| && tokens[1..][j] == [];
        assert tokens[j + 1] == [];
      }
    }
  }

  /** The same condition read on characters: a '_' at the end of the text or before another '_'. */
  lemma {:induction false} CamelCaseByCharsThrows(s: string)
    ensures CamelCaseByChars(s).None? <==> HasEmptyLaterToken(s)
  {
    if s == [] {
    } else if s[0] != '_' {
      CamelCaseByCharsThrows(s[1..]);
      if HasEmptyLaterToken(s[1..]) {
        var i :| 0 <= i < |s[1..]| && s[1..][i] == '_' && (i + 1 == |s[1..]| || s[1..][i + 1] == '_');
        assert s[i + 1] == '_' && (i + 2 == |s| || s[i + 2] == '_');
      }
      if HasEmptyLaterToken(s) {
        var i :| 0 <= i < |s| && s[i] == '_' && (i + 1 == |s| || s[i + 1] == '_');
        assert s[1..][i - 1] == '_' && (i == |s[1..]| || s[1..][i] == '_');
      }
    } else if |s| == 1 || s[1] == '_' {
      assert s[0] == '_' && (0 + 1 == |s| || s[0 + 1] == '_');
    } else {
      CamelCaseByCharsThrows(s[2..]);
      if HasEmptyLaterToken(s[2..]) {
        var i :| 0 <= i < |s[2..]| && s[2..][i] == '_' && (i + 1 == |s[2..]| || s[2..][i + 1] == '_');
        assert s[i + 2] == '_' && (i + 3 == |s| || s[i + 3] == '_');
      }
      if HasEmptyLaterToken(s) {
        var i :| 0 <= i < |s| && s[i] == '_' && (i + 1 == |s| || s[i + 1] == '_');
        assert i >= 2;
        assert s[2..][i - 2] == '_' && (i - 1 == |s[2..]| || s[2..][i - 1] == '_');
      }
    }
  }

  // ---------------------------------------------------------------------------
  // toSnakeCase
  // ---------------------------------------------------------------------------

  /**
   * The meaning of `toSnakeCase`: every upper-case letter becomes '_' followed
   * by its lower-case form; every other character is kept.
   */
  function SnakeCase(s: string): (r: string)
    ensures |r| == |s| + UpperCount(s)
  {
    if s == [] then []
    else (if IsUpper(s[0]) then ['_', ToLower(s[0])] else [s[0]]) + SnakeCase(s[1..])
  }

  lemma {:induction false} SnakeCaseNoUpper(s: string)
    ensures NoUpper(SnakeCase(s))
  {
    if s != [] {
      SnakeCaseNoUpper(s[1..]);
      NoUpperAppend(if IsUpper(s[0]) then ['_', ToLower(s[0])] else [s[0]], SnakeCase(s[1..]));
    }
  }

  lemma {:induction false} SnakeCaseAppend(a: string, b: string)
    ensures SnakeCase(a + b) == SnakeCase(a) + SnakeCase(b)
  {
    if a != [] {
      assert (a + b)[0] == a[0] && (a + b)[1..] == a[1..] + b;
      SnakeCaseAppend(a[1..], b);
      var head := if IsUpper(a[0]) then ['_', ToLower(a[0])] else [a[0]];
      calc {
        SnakeCase(a + b);
        head + SnakeCase(a[1..] + b);
        head + (SnakeCase(a[1..]) + SnakeCase(b));
        (head + SnakeCase(a[1..])) + SnakeCase(b);
        SnakeCase(a) + SnakeCase(b);
      }
    } else {
      assert a + b == b;
    }
  }

  /** A string with no upper-case letter is its own snake_case form. */
  lemma {:induction false} SnakeCaseIdentity(s: string)
    requires NoUpper(s)
    ensures SnakeCase(s) == s
  {
    if s != [] {
      SnakeCaseIdentity(s[1..]);
    }
  }

  /** The letters `[...s.matchAll(/[A-Z]/g)]` yields, in order, each as `k[0]`. */
  function UpperLetters(s: string): (letters: seq<char>)
    ensures |letters| == UpperCount(s)
  {
    if s == [] then [] else (if IsUpper(s[0]) then [s[0]] else []) + UpperLetters(s[1..])
  }

  /** `String.prototype.replace` with a one-character pattern: only the leftmost occurrence is replaced. */
  function ReplaceFirst(s: string, c: char, replacement: string): (r: string)
    ensures c !in s ==> r == s
    ensures c in s ==> |r| == |s| - 1 + |replacement|
  {
    if s == [] then []
    else if s[0] == c then replacement + s[1..]
    else [s[0]] + ReplaceFirst(s[1..], c, replacement)
  }

  lemma {:induction false} ReplaceFirstSkips(a: string, b: string, c: char, replacement: string)
    requires c !in a
    ensures ReplaceFirst(a + b, c, replacement) == a + ReplaceFirst(b, c, replacement)
  {
    if a != [] {
      assert (a + b)[0] == a[0] && (a + b)[1..] == a[1..] + b;
      ReplaceFirstSkips(a[1..], b, c, replacement);
      calc {
        ReplaceFirst(a + b, c, replacement);
        [a[0]] + ReplaceFirst(a[1..] + b, c, replacement);
        [a[0]] + (a[1..] + ReplaceFirst(b, c, replacement));
        { assert a == [a[0]] + a[1..]; }
        a + ReplaceFirst(b, c, replacement);
      }
    } else {
      assert a + b == b;
    }
  }

  /** The first upper-case letter of `t`, at index `q`, is the first keyword. */
  lemma {:induction false} FirstUpper(t: string) returns (q: nat)
    requires UpperLetters(t) != []
    ensures q < |t| && t[q] == UpperLetters(t)[0] && IsUpper(t[q])
    ensures NoUpper(t[..q])
    ensures UpperLetters(t[q + 1..]) == UpperLetters(t)[1..]
  {
    if IsUpper(t[0]) {
      q := 0;
    } else {
      var p := FirstUpper(t[1..]);
      q := p + 1;
      assert t[..q] == [t[0]] + t[1..][..p];
      assert t[q + 1..] == t[1..][p + 1..];
    }
  }

  lemma {:induction false} NoUpperLetters(t: string)
    requires UpperLetters(t) == []
    ensures NoUpper(t)
  {
    if t != [] {
      NoUpperLetters(t[1..]);
      assert forall i :: 1 <= i < |t| ==> t[i] == t[1..][i - 1];
    }
  }

  lemma {:induction false} NoUpperAppend(a: string, b: string)
    requires NoUpper(a) && NoUpper(b)
    ensures NoUpper(a + b)
  {
    forall i | 0 <= i < |a + b| ensures !IsUpper((a + b)[i]) {
      if i < |a| { assert (a + b)[i] == a[i]; } else { assert (a + b)[i] == b[i - |a|]; }
    }
  }

  lemma {:induction false} NoUpperExcludes(a: string, c: char)
    requires NoUpper(a) && IsUpper(c)
    ensures c !in a
  {
  }

  /** Replacing the leftmost `c` where the part before it holds none. */
  lemma {:induction false} ReplaceAt(a: string, c: char, post: string, replacement: string)
    requires c !in a
    ensures ReplaceFirst(a + ([c] + post), c, replacement) == a + replacement + post
  {
    ReplaceFirstSkips(a, [c] + post, c, replacement);
    assert ReplaceFirst([c] + post, c, replacement) == replacement + post;
  }

  /** Converting one more stretch without upper-case letters, then one upper-case letter. */
  lemma {:induction false} SnakeExtend(x: string, mid: string, c: char)
    requires NoUpper(mid) && IsUpper(c)
    ensures SnakeCase(x + mid + [c]) == SnakeCase(x) + mid + ("_" + [ToLower(c)])
  {
    SnakeCaseAppend(x + mid, [c]);
    SnakeCaseAppend(x, mid);
    SnakeCaseIdentity(mid);
    assert SnakeCase([c]) == "_" + [ToLower(c)] + SnakeCase([]);
  }

  /**
   * One turn of the replace loop: when `s[..done]` is already converted and the
   * next upper-case letter sits at `done + q`, replacing its leftmost occurrence
   * converts exactly the prefix up to and including it.
   */
  lemma {:induction false} SnakeReplace(s: string, done: nat, q: nat)
    requires done + q < |s|
    requires NoUpper(s[done..done + q]) && IsUpper(s[done + q])
    ensures ReplaceFirst(SnakeCase(s[..done]) + s[done..], s[done + q], "_" + [ToLower(s[done + q])])
         == SnakeCase(s[..done + q + 1]) + s[done + q + 1..]
  {
    var c := s[done + q];
    var pre := SnakeCase(s[..done]);
    var mid := s[done..done + q];
    var post := s[done + q + 1..];
    assert s[done..] == mid + ([c] + post);
    assert pre + s[done..] == (pre + mid) + ([c] + post);
    SnakeCaseNoUpper(s[..done]);
    NoUpperAppend(pre, mid);
    NoUpperExcludes(pre + mid, c);
    ReplaceAt(pre + mid, c, post, "_" + [ToLower(c)]);
    assert s[..done + q + 1] == s[..done] + mid + [c];
    SnakeExtend(s[..done], mid, c);
  }

  /** The loop step, from the keywords' point of view: where the next keyword is and what remains. */
  lemma {:induction false} SnakeStep(s: string, done: nat) returns (q: nat)
    requires done <= |s| && UpperLetters(s[done..]) != []
    ensures done + q < |s| && s[done + q] == UpperLetters(s[done..])[0]
    ensures ReplaceFirst(SnakeCase(s[..done]) + s[done..], s[done + q], "_" + [ToLower(s[done + q])])
         == SnakeCase(s[..done + q + 1]) + s[done + q + 1..]
    ensures UpperLetters(s[done + q + 1..]) == UpperLetters(s[done..])[1..]
  {
    q := FirstUpper(s[done..]);
    assert s[done..][..q] == s[done..done + q];
    assert s[done..][q + 1..] == s[done + q + 1..];
    SnakeReplace(s, done, q);
  }

  lemma {:induction false} SnakeFinish(s: string, done: nat)
    requires done <= |s| && UpperLetters(s[done..]) == []
    ensures SnakeCase(s[..done]) + s[done..] == SnakeCase(s)
  {
    NoUpperLetters(s[done..]);
    assert s == s[..done] + s[done..];
    SnakeCaseAppend(s[..done], s[done..]);
    SnakeCaseIdentity(s[done..]);
  }

  /**
   * `toSnakeCase`: collect the upper-case letters, then for each of them, in
   * order, replace its leftmost occurrence by '_' and its lower-case form.
   */
  method ToSnakeCase(camelText: string) returns (result: string)
    ensures result == SnakeCase(camelText)
  {
    var keywords := UpperLetters(camelText);
    result := camelText;
    ghost var done: nat := 0;
    for i := 0 to |keywords|
      invariant done <= |camelText|
      invariant result == SnakeCase(camelText[..done]) + camelText[done..]
      invariant UpperLetters(camelText[done..]) == keywords[i..]
    {
      var k := keywords[i];
      ghost var q := SnakeStep(camelText, done);
      assert keywords[i..][0] == k && keywords[i..][1..] == keywords[i + 1..];
      assert k == camelText[done + q];
      result := ReplaceFirst(result, k, "_" + [ToLower(k)]);
      assert result == SnakeCase(camelText[..done + q + 1]) + camelText[done + q + 1..];
      done := done + q + 1;
    }
    SnakeFinish(camelText, done);
  }

  /** snake_case output holds no upper-case letter and is longer than the input by their number. */
  lemma {:induction false} SnakeCaseOutput(s: string)
    ensures NoUpper(SnakeCase(s)) && |SnakeCase(s)| == |s| + UpperCount(s)
    ensures NoUpper(s) ==> SnakeCase(s) == s
  {
    SnakeCaseNoUpper(s);
    if NoUpper(s) {
      SnakeCaseIdentity(s);
    }
  }

  // ---------------------------------------------------------------------------
  // Round trips
  // ---------------------------------------------------------------------------

  lemma {:induction false} CamelCaseOfSnakeByChars(s: string)
    requires '_' !in s
    ensures CamelCaseByChars(SnakeCase(s)) == Some(s)
  {
    if s != [] {
      CamelCaseOfSnakeByChars(s[1..]);
      var rest := SnakeCase(s[1..]);
      if IsUpper(s[0]) {
        var t := ['_', ToLower(s[0])] + rest;
        assert SnakeCase(s) == t;
        assert t[1..][1..] == t[2..] == rest;
        assert ToUpper(t[1]) == s[0];
        assert CamelCaseByChars(t) == Some([s[0]] + s[1..]);
        assert [s[0]] + s[1..] == s;
      } else {
        var t := [s[0]] + rest;
        assert SnakeCase(s) == t && t[0] == s[0] != '_' && t[1..] == rest;
        assert CamelCaseByChars(t) == Some([s[0]] + s[1..]);
        assert [s[0]] + s[1..] == s;
      }
    }
  }

  /** camelCase undoes snake_case on every text without '_'. */
  lemma {:induction false} CamelCaseOfSnakeCase(s: string)
    requires '_' !in s
    ensures ToCamelCase(SnakeCase(s)) == Some(s)
  {
    CamelCaseAgreesWithChars(SnakeCase(s));
    CamelCaseOfSnakeByChars(s);
  }

  lemma {:induction false} SnakeOfCamelCaseByChars(s: string)
    requires NoUpper(s) && LowerAfterUnderscores(s)
    ensures CamelCaseByChars(s).Some? && SnakeCase(CamelCaseByChars(s).value) == s
  {
    if s == [] {
    } else if s[0] != '_' {
      assert LowerAfterUnderscores(s[1..]) by {
        forall i | 0 <= i < |s[1..]| && s[1..][i] == '_' ensures i + 1 < |s[1..]| && IsLower(s[1..][i + 1]) {
          assert s[i + 1] == '_';
        }
      }
      SnakeOfCamelCaseByChars(s[1..]);
      var t := CamelCaseByChars(s[1..]).value;
      assert ([s[0]] + t)[1..] == t;
    } else {
      assert 1 < |s| && IsLower(s[1]);
      assert LowerAfterUnderscores(s[2..]) by {
        forall i | 0 <= i < |s[2..]| && s[2..][i] == '_' ensures i + 1 < |s[2..]| && IsLower(s[2..][i + 1]) {
          assert s[i + 2] == '_';
        }
      }
      SnakeOfCamelCaseByChars(s[2..]);
      var t := CamelCaseByChars(s[2..]).value;
      LowerOfUpper(s[1]);
      assert ([ToUpper(s[1])] + t)[1..] == t;
      assert s == ['_', s[1]] + s[2..];
    }
  }

  /**
   * snake_case undoes camelCase on every text without upper-case letters
   * whose tokens after the first are non-empty and start with a-z.
   */
  lemma {:induction false} SnakeCaseOfCamelCase(s: string)
    requires NoUpper(s) && LowerAfterUnderscores(s)
    ensures ToCamelCase(s).Some? && SnakeCase(ToCamelCase(s).value) == s
  {
    CamelCaseAgreesWithChars(s);
    SnakeOfCamelCaseByChars(s);
  }

  // ---------------------------------------------------------------------------
  // mapToCamelCase and mapToSnakeCase
  // ---------------------------------------------------------------------------

  /** A plain object as the list `Object.entries` gives. */
  type Entries<V> = seq<(string, V)>

  function Values<V>(data: Entries<V>): (values: seq<V>)
    ensures |values| == |data|
  {
    seq(|data|, i requires 0 <= i < |data| => data[i].1)
  }

  /** Every key converted by `toCamelCase`; a key whose conversion throws is kept as it is. */
  function CamelKeys<V>(data: Entries<V>): (keys: seq<string>)
    ensures |keys| == |data|
  {
    seq(|data|, i requires 0 <= i < |data| =>
      match ToCamelCase(data[i].0)
      case Some(k) => k
      case None => data[i].0)
  }

  /** Every key converted by `toSnakeCase`. */
  function SnakeKeys<V>(data: Entries<V>): (keys: seq<string>)
    ensures |keys| == |data|
  {
    seq(|data|, i requires 0 <= i < |data| => SnakeCase(data[i].0))
  }

  /**
   * `m` is what assigning `values[i]` to `keys[i]` for i = 0, 1, ... leaves:
   * its keys are exactly the assigned keys, and each holds the value of the
   * last assignment to it.
   */
  ghost predicate LastWins<V>(m: map<string, V>, keys: seq<string>, values: seq<V>)
    requires |keys| == |values|
  {
    && m.Keys == (set i | 0 <= i < |keys| :: keys[i])
    && forall k :: k in m ==>
         exists i :: 0 <= i < |keys| && keys[i] == k && m[k] == values[i] &&
           forall j :: i < j < |keys| ==> keys[j] != k
  }

  lemma {:induction false} LastWinsExtend<V>(m: map<string, V>, keys: seq<string>, values: seq<V>, key: string, value: V)
    requires |keys| == |values| && LastWins(m, keys, values)
    ensures LastWins(m[key := value], keys + [key], values + [value])
  {
    var keys', values', m' := keys + [key], values + [value], m[key := value];
    assert m'.Keys == (set i | 0 <= i < |keys'| :: keys'[i]) by {
      forall k | k in m' ensures exists i :: 0 <= i < |keys'| && keys'[i] == k {
        if k == key {
          assert keys'[|keys|] == k;
        } else {
          var i :| 0 <= i < |keys| && keys[i] == k;
          assert keys'[i] == k;
        }
      }
      forall i | 0 <= i < |keys'| ensures keys'[i] in m' {
        if i < |keys| { assert keys'[i] == keys[i]; }
      }
    }
    forall k | k in m'
      ensures exists i :: 0 <= i < |keys'| && keys'[i] == k && m'[k] == values'[i] &&
                forall j :: i < j < |keys'| ==> keys'[j] != k
    {
      if k == key {
        assert keys'[|keys|] == k && m'[k] == values'[|keys|];
      } else {
        var i :| 0 <= i < |keys| && keys[i] == k && m[k] == values[i] &&
                 forall j :: i < j < |keys| ==> keys[j] != k;
        assert keys'[i] == k && m'[k] == values'[i];
        assert forall j :: i < j < |keys'| ==> keys'[j] != k by {
          forall j | i < j < |keys'| ensures keys'[j] != k {
            if j < |keys| { assert keys'[j] == keys[j]; }
          }
        }
      }
    }
  }

  /**
   * `mapToCamelCase`: copy every entry, converting its key with `toCamelCase`
   * when it holds a '_'; a later entry overwrites an earlier one with the same
   * converted key. `None` when a conversion throws. Converting only the keys
   * with a '_' is the same as converting every key.
   */
  method MapToCamelCase<V>(data: Entries<V>) returns (mapped: Option<map<string, V>>)
    ensures mapped.None? <==> exists i :: 0 <= i < |data| && ToCamelCase(data[i].0).None?
    ensures mapped.Some? ==> LastWins(mapped.value, CamelKeys(data), Values(data))
    ensures mapped.Some? ==> forall k :: k in mapped.value ==> '_' !in k
  {
    var m: map<string, V> := map[];
    for i := 0 to |data|
      invariant forall j :: 0 <= j < i ==> ToCamelCase(data[j].0).Some?
      invariant LastWins(m, CamelKeys(data)[..i], Values(data)[..i])
    {
      var (key, value) := data[i];
      var parsedKey := key;
      if '_' in key {
        var converted := ToCamelCase(key);
        if converted.None? {
          return None;
        }
        parsedKey := converted.value;
      }
      assert CamelKeys(data)[..i + 1] == CamelKeys(data)[..i] + [parsedKey];
      assert Values(data)[..i + 1] == Values(data)[..i] + [value];
      LastWinsExtend(m, CamelKeys(data)[..i], Values(data)[..i], parsedKey, value);
      m := m[parsedKey := value];
    }
    assert CamelKeys(data)[..|data|] == CamelKeys(data);
    assert Values(data)[..|data|] == Values(data);
    forall k | k in m ensures '_' !in k {
      var i :| 0 <= i < |data| && CamelKeys(data)[i] == k;
      ToCamelCaseOutput(data[i].0);
    }
    mapped := Some(m);
  }

  /**
   * `mapToSnakeCase`: copy every entry, converting its key with `toSnakeCase`
   * when it holds an upper-case letter; a later entry overwrites an earlier
   * one with the same converted key. Converting only those keys is the same
   * as converting every key.
   */
  method MapToSnakeCase<V>(data: Entries<V>) returns (mapped: map<string, V>)
    ensures LastWins(mapped, SnakeKeys(data), Values(data))
    ensures forall k :: k in mapped ==> NoUpper(k)
  {
    mapped := map[];
    for i := 0 to |data|
      invariant LastWins(mapped, SnakeKeys(data)[..i], Values(data)[..i])
    {
      var (key, value) := data[i];
      var parsedKey := key;
      if !NoUpper(key) {
        parsedKey := ToSnakeCase(key);
      } else {
        SnakeCaseIdentity(key);
      }
      assert SnakeKeys(data)[..i + 1] == SnakeKeys(data)[..i] + [parsedKey];
      assert Values(data)[..i + 1] == Values(data)[..i] + [value];
      LastWinsExtend(mapped, SnakeKeys(data)[..i], Values(data)[..i], parsedKey, value);
      mapped := mapped[parsedKey := value];
    }
    assert SnakeKeys(data)[..|data|] == SnakeKeys(data);
    assert Values(data)[..|data|] == Values(data);
    forall k | k in mapped ensures NoUpper(k) {
      var i :| 0 <= i < |data| && SnakeKeys(data)[i] == k;
      SnakeCaseNoUpper(data[i].0);
    }
  }
}
