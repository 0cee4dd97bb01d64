/**
 * The few JavaScript string operations the storage-key logic relies on:
 * `String.prototype.split` with a one-character separator and
 * `String.prototype.toLowerCase` (on the ASCII range).
 */
module JsStrings {

  /** `s.split(sep)`: the pieces of `s` between occurrences of `sep`, in order. */
  function Split(s: string, sep: char): (parts: seq<string>)
    ensures |parts| >= 1
    decreases |s|
  {
    if s == [] then [""]
    else
      var rest := Split(s[1..], sep);
      if s[0] == sep then [""] + rest
      else [[s[0]] + rest[0]] + rest[1..]
  }

  /** `parts.join(sep)`, the inverse of Split. */
  function Join(parts: seq<string>, sep: char): string
    requires |parts| >= 1
  {
    if |parts| == 1 then parts[0] else parts[0] + [sep] + Join(parts[1..], sep)
  }

  /** No piece produced by Split contains the separator. */
  predicate SeparatorFree(parts: seq<string>, sep: char)
  {
    forall i :: 0 <= i < |parts| ==> sep !in parts[i]
  }

  /** Splitting and joining again gives back the original text. */
  lemma {:induction false} JoinSplit(s: string, sep: char)
    ensures Join(Split(s, sep), sep) == s
    ensures SeparatorFree(Split(s, sep), sep)
    decreases |s|
  {
    if s != [] {
      var rest := Split(s[1..], sep);
      JoinSplit(s[1..], sep);
      if s[0] == sep {
        assert Split(s, sep) == [""] + rest;
        assert s == [s[0]] + s[1..];
      } else {
        var parts := Split(s, sep);
        assert parts == [[s[0]] + rest[0]] + rest[1..];
        if |rest| == 1 {
          assert Join(parts, sep) == [s[0]] + rest[0];
        } else {
          assert parts[1..] == rest[1..];
          assert Join(parts, sep) == [s[0]] + rest[0] + [sep] + Join(rest[1..], sep);
        }
        assert s == [s[0]] + s[1..];
      }
    }
  }

  /** Split of a text that starts with the separator. */
  lemma SplitSep(s: string, sep: char)
    ensures Split([sep] + s, sep) == [""] + Split(s, sep)
  {
    assert ([sep] + s)[1..] == s;
  }

  /** Split of a text that starts with another character. */
  lemma SplitOther(c: char, s: string, sep: char)
    requires c != sep
    ensures Split([c] + s, sep) == [[c] + Split(s, sep)[0]] + Split(s, sep)[1..]
  {
    assert ([c] + s)[1..] == s;
  }

  /** Moving the first character of the first piece out of a join. */
  lemma JoinFirstChar(parts: seq<string>, sep: char)
    requires |parts| >= 1 && parts[0] != []
    ensures Join(parts, sep) == [parts[0][0]] + Join([parts[0][1..]] + parts[1..], sep)
  {
    var p := parts[0];
    var parts' := [p[1..]] + parts[1..];
    assert p == [p[0]] + p[1..];
    if |parts| > 1 {
      assert parts'[1..] == parts[1..];
    }
  }

  /** Joining separator-free pieces and splitting again gives back the pieces. */
  lemma {:induction false} SplitJoin(parts: seq<string>, sep: char)
    requires |parts| >= 1
    requires SeparatorFree(parts, sep)
    ensures Split(Join(parts, sep), sep) == parts
    decreases |parts|, |parts[0]|
  {
    var p := parts[0];
    if p == [] {
      if |parts| > 1 {
        SplitJoin(parts[1..], sep);
        SplitSep(Join(parts[1..], sep), sep);
        assert parts == [""] + parts[1..];
      }
    } else {
      var parts' := [p[1..]] + parts[1..];
      assert SeparatorFree(parts', sep) by {
        forall i | 0 <= i < |parts'| ensures sep !in parts'[i] {
          if i == 0 {
            assert forall c :: c in p[1..] ==> c in p;
          } else {
            assert parts'[i] == parts[i];
          }
        }
      }
      SplitJoin(parts', sep);
      JoinFirstChar(parts, sep);
      assert p[0] in p;
      SplitOther(p[0], Join(parts', sep), sep);
      assert p == [p[0]] + p[1..];
      assert parts == [p] + parts'[1..];
    }
  }

  /**
   * The first piece of `s.split(sep)` is `t` (a separator-free text) exactly
   * when `s` is `t` itself or starts with `t` followed by the separator.
   */
  lemma {:induction false} SplitHead(s: string, sep: char, t: string)
    requires sep !in t
    ensures Split(s, sep)[0] == t <==> (s == t || t + [sep] <= s)
    decreases |s|
  {
    if s != [] && s[0] != sep {
      var rest := Split(s[1..], sep);
      if t != [] {
        assert forall c :: c in t[1..] ==> c in t;
        SplitHead(s[1..], sep, t[1..]);
        assert t == [t[0]] + t[1..];
        assert s == [s[0]] + s[1..];
        assert (t + [sep])[1..] == t[1..] + [sep];
        assert (t + [sep] <= s) <==> (t[0] == s[0] && t[1..] + [sep] <= s[1..]);
      }
    } else if s != [] && t != [] {
      assert t[0] != sep;
    }
  }

  /** ASCII case folding of one character, as `toLowerCase` does on that range. */
  function ToLowerChar(c: char): char
  {
    if 'A' <= c <= 'Z' then (c as int + 32) as char else c
  }

  /** True when the character is an upper-case ASCII letter. */
  predicate IsUpper(c: char)
  {
    'A' <= c <= 'Z'
  }

  /** Two texts that differ at most in the case of their ASCII letters. */
  predicate EqualsIgnoreCase(a: string, b: string)
  {
    |a| == |b| && forall i :: 0 <= i < |a| ==> ToLowerChar(a[i]) == ToLowerChar(b[i])
  }

  /** `s.toLowerCase()`. */
  function ToLower(s: string): (r: string)
    ensures EqualsIgnoreCase(r, s)
    ensures forall i :: 0 <= i < |r| ==> !IsUpper(r[i])
  {
    seq(|s|, i requires 0 <= i < |s| => ToLowerChar(s[i]))
  }

  /** Comparing lower-cased texts is comparing them ignoring case. */
  lemma ToLowerEqual(a: string, b: string)
    ensures ToLower(a) == ToLower(b) <==> EqualsIgnoreCase(a, b)
  {
    if EqualsIgnoreCase(a, b) {
      assert forall i :: 0 <= i < |a| ==> ToLower(a)[i] == ToLower(b)[i];
    }
  }

  /** A text without upper-case letters is its own lower-cased form. */
  lemma ToLowerOfLower(b: string)
    requires forall i :: 0 <= i < |b| ==> !IsUpper(b[i])
    ensures ToLower(b) == b
  {
  }
}
