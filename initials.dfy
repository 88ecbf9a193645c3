/**
 * `getUserInitials` of the navigation bar
 * (client/src/components/layout/navbar.tsx): the avatar text built from
 * the user's name by `split(" ")`, taking each part's first character,
 * `join("")`, `toUpperCase()` and `substring(0, 2)`.
 */
module Initials {
  import opened Wrappers

  // ---------------------------------------------------------------------
  // The string operations the expression chain uses
  // ---------------------------------------------------------------------

  /**
   * `s.split(sep)` for a one-character separator: the pieces between the
   * separators, empty ones included; the empty string gives `[""]`.
   */
  function Split(s: string, sep: char): (parts: seq<string>)
    ensures |parts| >= 1
    ensures forall i :: 0 <= i < |parts| ==> sep !in parts[i]
  {
    if s == [] then [""]
    else
      var rest := Split(s[1..], sep);
      if s[0] == sep then [""] + rest
      else [[s[0]] + rest[0]] + rest[1..]
  }

  /** `parts.join(sep)`. */
  function Join(parts: seq<string>, sep: string): string {
    if |parts| == 0 then ""
    else if |parts| == 1 then parts[0]
    else parts[0] + sep + Join(parts[1..], sep)
  }

  /** Joining after a first part puts the separator between it and the rest. */
  lemma JoinCons(x: string, ys: seq<string>, sep: string)
    requires ys != []
    ensures Join([x] + ys, sep) == x + sep + Join(ys, sep)
  {
    assert ([x] + ys)[1..] == ys;
  }

  /** Joining the pieces of a split with the same separator gives the string back. */
  lemma {:induction false} JoinSplit(s: string, sep: char)
    ensures Join(Split(s, sep), [sep]) == s
  {
    if s != [] {
      var rest := Split(s[1..], sep);
      JoinSplit(s[1..], sep);
      if s[0] == sep {
        JoinCons("", rest, [sep]);
      } else if |rest| == 1 {
        assert Split(s, sep) == [[s[0]] + rest[0]];
      } else {
        JoinCons(rest[0], rest[1..], [sep]);
        assert [rest[0]] + rest[1..] == rest;
        JoinCons([s[0]] + rest[0], rest[1..], [sep]);
      }
    }
  }

  /**
   * `n => n[0]` as `join` sees it: the first character, or nothing for an
   * empty part (whose `n[0]` is `undefined`, which `join` writes as "").
   */
  function Head(part: string): (h: string)
    ensures |h| <= 1 && (h == "" <==> part == "")
    ensures part != "" ==> h[0] == part[0]
  {
    if part == "" then "" else [part[0]]
  }

  /** `parts.map(n => n[0])`. */
  function Heads(parts: seq<string>): (hs: seq<string>)
    ensures |hs| == |parts|
    ensures forall i :: 0 <= i < |parts| ==> hs[i] == Head(parts[i])
  {
    seq(|parts|, i requires 0 <= i < |parts| => Head(parts[i]))
  }

  predicate IsLower(c: char) { 'a' <= c <= 'z' }

  /** `toUpperCase` on one character, for the ASCII letters. */
  function Upper(c: char): (u: char)
    ensures !IsLower(u)
    ensures IsLower(c) ==> u as int == c as int - 32
    ensures !IsLower(c) ==> u == c
  {
    if IsLower(c) then (c as int - 32) as char else c
  }

  /** `s.toUpperCase()`, character by character. */
  function UpperCase(s: string): (u: string)
    ensures |u| == |s|
    ensures forall i :: 0 <= i < |s| ==> u[i] == Upper(s[i])
  {
    seq(|s|, i requires 0 <= i < |s| => Upper(s[i]))
  }

  /** `s.substring(0, n)`: the first `n` characters, or all of a shorter string. */
  function Prefix(s: string, n: nat): (p: string)
    ensures |p| <= n && |p| <= |s|
    ensures |p| == if |s| < n then |s| else n
    ensures p == s[..|p|]
  {
    if |s| <= n then s else s[..n]
  }

  // ---------------------------------------------------------------------
  // getUserInitials
  // ---------------------------------------------------------------------

  /**
   * The avatar text: "U" for a missing or empty name; otherwise at most
   * two characters, none of them a lower-case letter, namely the first
   * two word starts of the name, upper-cased.
   */
  function GetUserInitials(name: Option<string>): (r: string)
    ensures name.None? || name == Some("") ==> r == "U"
    ensures |r| <= 2
    ensures forall i :: 0 <= i < |r| ==> !IsLower(r[i])
    ensures name.Some? && name.value != "" ==> r == Prefix(UpperCase(WordStarts(name.value, true)), 2)
  {
    if name.None? || name.value == "" then "U"
    else
      var s := name.value;
      HeadsOfSplit(s);
      Prefix(UpperCase(Join(Heads(Split(s, ' ')), "")), 2)
  }

  // ---------------------------------------------------------------------
  // A reference definition: the characters that start a word
  // ---------------------------------------------------------------------

  /**
   * One left-to-right scan: every character that is not a space and
   * comes first or right after a space, in order. `atStart` says whether
   * the previous character was a space (or there was none).
   */
  function WordStarts(s: string, atStart: bool): (w: string)
    ensures |w| <= |s|
    ensures ' ' !in w
  {
    if s == [] then ""
    else if s[0] == ' ' then WordStarts(s[1..], true)
    else (if atStart then [s[0]] else "") + WordStarts(s[1..], false)
  }

  /** Joining with "" after a first part just concatenates. */
  lemma JoinEmptyCons(x: string, ys: seq<string>)
    ensures Join([x] + ys, "") == x + Join(ys, "")
  {
    if ys != [] {
      JoinCons(x, ys, "");
    }
  }

  /**
   * The expression chain before upper-casing picks exactly the word
   * starts: the first characters of all the parts, and after the first
   * part those that start after a space.
   */
  lemma {:induction false} HeadsOfSplit(s: string)
    ensures Join(Heads(Split(s, ' ')), "") == WordStarts(s, true)
    ensures Join(Heads(Split(s, ' ')[1..]), "") == WordStarts(s, false)
  {
    if s != [] {
      var rest := Split(s[1..], ' ');
      HeadsOfSplit(s[1..]);
      if s[0] == ' ' {
        assert Split(s, ' ') == [""] + rest;
        assert Heads([""] + rest) == [""] + Heads(rest);
        JoinEmptyCons("", Heads(rest));
        assert Split(s, ' ')[1..] == rest;
      } else {
        var first := [s[0]] + rest[0];
        assert Split(s, ' ') == [first] + rest[1..];
        assert Heads([first] + rest[1..]) == [[s[0]]] + Heads(rest[1..]);
        JoinEmptyCons([s[0]], Heads(rest[1..]));
        assert Split(s, ' ')[1..] == rest[1..];
      }
    }
  }

  // ---------------------------------------------------------------------
  // Consequences
  // ---------------------------------------------------------------------

  /** A name made only of spaces has no word starts. */
  lemma {:induction false} BlankHasNoWordStarts(s: string, atStart: bool)
    requires forall i :: 0 <= i < |s| ==> s[i] == ' '
    ensures WordStarts(s, atStart) == ""
  {
    if s != [] {
      BlankHasNoWordStarts(s[1..], true);
    }
  }

  /** A non-empty name of spaces only gives "", not the "U" of an empty name. */
  lemma BlankNameInitials(s: string)
    requires s != [] && forall i :: 0 <= i < |s| ==> s[i] == ' '
    ensures GetUserInitials(Some(s)) == ""
  {
    BlankHasNoWordStarts(s, true);
  }

  /** A name that starts with a letter has initials that start with that letter, upper-cased. */
  lemma FirstInitial(s: string)
    requires s != [] && s[0] != ' '
    ensures GetUserInitials(Some(s)) != "" && GetUserInitials(Some(s))[0] == Upper(s[0])
  {
    var w := WordStarts(s, true);
    assert w == [s[0]] + WordStarts(s[1..], false);
  }

  /** Inside a word, no character starts one. */
  lemma {:induction false} InsideWord(w: string)
    requires ' ' !in w
    ensures WordStarts(w, false) == ""
  {
    if w != [] {
      assert ' ' !in w[1..];
      InsideWord(w[1..]);
    }
  }

  /** A word followed by a space contributes its first character, and the scan starts afresh after it. */
  lemma WordThenSpace(w: string, rest: string)
    requires w != [] && ' ' !in w
    ensures WordStarts(w + " " + rest, true) == [w[0]] + WordStarts(rest, true)
  {
    var s := w + " " + rest;
    assert s[1..] == w[1..] + " " + rest;
    assert ' ' !in w[1..];
    WordTail(w[1..], rest);
  }

  /** The rest of a word and the space after it contribute nothing further. */
  lemma {:induction false} WordTail(t: string, rest: string)
    requires ' ' !in t
    ensures WordStarts(t + " " + rest, false) == WordStarts(rest, true)
  {
    if t == [] {
      assert t + " " + rest == [' '] + rest;
    } else {
      assert (t + " " + rest)[1..] == t[1..] + " " + rest;
      assert ' ' !in t[1..];
      WordTail(t[1..], rest);
    }
  }

  /** Words separated by single spaces: the initials are the first letters of the first two words. */
  lemma FirstTwoWords(a: string, b: string, rest: string)
    requires a != [] && ' ' !in a && b != [] && ' ' !in b
    ensures GetUserInitials(Some(a + " " + b + " " + rest)) == [Upper(a[0]), Upper(b[0])]
  {
    var tail := b + " " + rest;
    assert a + " " + b + " " + rest == a + " " + tail;
    WordThenSpace(a, tail);
    WordThenSpace(b, rest);
    var w := WordStarts(a + " " + tail, true);
    assert w[..2] == [a[0], b[0]];
  }

  /**
   * An empty part from a doubled space contributes nothing: two words
   * with two spaces between them give the first letters of both.
   */
  lemma DoubleSpace(a: string, b: string)
    requires a != [] && ' ' !in a && b != [] && ' ' !in b
    ensures GetUserInitials(Some(a + "  " + b)) == [Upper(a[0]), Upper(b[0])]
  {
    var tail := " " + b;
    assert a + "  " + b == a + " " + tail;
    WordThenSpace(a, tail);
    assert tail[1..] == b;
    assert ' ' !in b[1..];
    InsideWord(b[1..]);
    assert WordStarts(b, true) == [b[0]] + WordStarts(b[1..], false);
  }

  /** "ada lovelace king" gives "AL": only the first two initials are kept. */
  lemma ThreeWords()
    ensures GetUserInitials(Some("ada lovelace king")) == "AL"
  {
    assert "ada lovelace king" == "ada" + " " + "lovelace" + " " + "king";
    FirstTwoWords("ada", "lovelace", "king");
  }

  /** "a  b" gives "AB". */
  lemma RepeatedSpaces()
    ensures GetUserInitials(Some("a  b")) == "AB"
  {
    DoubleSpace("a", "b");
  }
}
