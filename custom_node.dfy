/**
 * The avatar initials of src/CustomNode.js: the upper-cased first letters of
 * the first two space-separated tokens of a name.
 */
module CustomNode {
  import opened Wrappers

  /** Upper-casing of one character, restricted to ASCII `a`-`z`; every other character is kept. */
  function ToUpper(c: char): (u: char)
    ensures 'a' <= c <= 'z' ==> 'A' <= u <= 'Z' && u as int - 'A' as int == c as int - 'a' as int
    ensures !('a' <= c <= 'z') ==> u == c
    ensures !('a' <= u <= 'z')
  {
    if 'a' <= c <= 'z' then (c as int - 'a' as int + 'A' as int) as char else c
  }

  /**
   * `s.split(sep)` for a one-character separator: the pieces between
   * separators, empty pieces included, so there is always at least one.
   */
  function Split(s: string, sep: char): (parts: seq<string>)
    ensures |parts| >= 1
    ensures forall i :: 0 <= i < |parts| ==> sep !in parts[i]
  {
    if s == [] then [[]]
    else
      var rest := Split(s[1..], sep);
      if s[0] == sep then [[]] + rest
      else [[s[0]] + rest[0]] + rest[1..]
  }

  /** The pieces glued back together with one separator between neighbours. */
  function Join(parts: seq<string>, sep: char): string
    requires |parts| >= 1
  {
    if |parts| == 1 then parts[0] else parts[0] + [sep] + Join(parts[1..], sep)
  }

  /** Splitting a string that begins with separator-free text glues that text onto the first piece. */
  lemma {:induction false} SplitAfterPlainPrefix(a: string, r: string, sep: char)
    requires sep !in a
    ensures Split(a + r, sep) == [a + Split(r, sep)[0]] + Split(r, sep)[1..]
  {
    if a == [] {
      var parts := Split(r, sep);
      assert a + r == r && a + parts[0] == parts[0];
      assert [parts[0]] + parts[1..] == parts;
    } else {
      assert (a + r)[1..] == a[1..] + r;
      SplitAfterPlainPrefix(a[1..], r, sep);
      var rest := Split(a[1..] + r, sep);
      assert Split(a + r, sep) == [[a[0]] + rest[0]] + rest[1..];
      assert [a[0]] + (a[1..] + Split(r, sep)[0]) == a + Split(r, sep)[0];
    }
  }

  /** Joining the pieces of a split gives the string back. */
  lemma {:induction false} SplitThenJoin(s: string, sep: char)
    ensures Join(Split(s, sep), sep) == s
  {
    if s != [] {
      SplitThenJoin(s[1..], sep);
      var rest := Split(s[1..], sep);
      if s[0] != sep && |rest| > 1 {
        assert Join(rest, sep) == rest[0] + [sep] + Join(rest[1..], sep);
        assert ([[s[0]] + rest[0]] + rest[1..])[1..] == rest[1..];
      }
    }
  }

  /** Splitting a join of separator-free pieces gives the pieces back. */
  lemma {:induction false} JoinThenSplit(parts: seq<string>, sep: char)
    requires |parts| >= 1
    requires forall i :: 0 <= i < |parts| ==> sep !in parts[i]
    ensures Split(Join(parts, sep), sep) == parts
  {
    if |parts| == 1 {
      SplitAfterPlainPrefix(parts[0], [], sep);
      assert parts[0] + [] == parts[0];
    } else {
      JoinThenSplit(parts[1..], sep);
      var r := [sep] + Join(parts[1..], sep);
      assert parts[0] + [sep] + Join(parts[1..], sep) == parts[0] + r;
      SplitAfterPlainPrefix(parts[0], r, sep);
      assert r[1..] == Join(parts[1..], sep);
      assert parts[0] + [] == parts[0];
      assert Split(r, sep) == [[]] + parts[1..];
      assert parts == [parts[0]] + parts[1..];
    }
  }

  /** A token's contribution to the initials: its first character upper-cased, or nothing for an empty token. */
  function Initial(token: string): (initial: string)
    ensures |initial| <= 1
    ensures initial == [] <==> token == []
    ensures initial != [] ==> initial[0] == ToUpper(token[0]) && !('a' <= initial[0] <= 'z')
  {
    if token == [] then [] else [ToUpper(token[0])]
  }

  /** The avatar initials of a name; a missing name counts as the empty string. */
  function GetInitials(fullName: Option<string>): (initials: string)
    ensures |initials| <= 2
    ensures fullName.None? || fullName == Some([]) ==> initials == []
  {
    var parts := Split(fullName.GetOr([]), ' ');
    var first := parts[0];
    var second := if |parts| > 1 then parts[1] else [];
    Initial(first) + Initial(second)
  }

  /**
   * For any name, written as its space-separated tokens, the initials are the
   * initial of the first token followed by that of the second, if any.
   */
  lemma InitialsOfTokens(tokens: seq<string>)
    requires |tokens| >= 1
    requires forall i :: 0 <= i < |tokens| ==> ' ' !in tokens[i]
    ensures GetInitials(Some(Join(tokens, ' '))) == Initial(tokens[0]) + if |tokens| > 1 then Initial(tokens[1]) else []
  {
    JoinThenSplit(tokens, ' ');
  }

  /** A name without a space yields the upper-cased first character of that word only. */
  lemma InitialsOfOneWord(word: string)
    requires ' ' !in word
    ensures GetInitials(Some(word)) == Initial(word)
    ensures word != [] ==> GetInitials(Some(word)) == [ToUpper(word[0])]
  {
    InitialsOfTokens([word]);
  }

  /**
   * Only the first two tokens count: whatever follows the second token's
   * closing space is ignored, and an empty token (a leading or doubled
   * space) contributes nothing.
   */
  lemma InitialsOfFirstTwoTokens(first: string, second: string, rest: string)
    requires ' ' !in first && ' ' !in second
    ensures GetInitials(Some(first + [' '] + second + [' '] + rest)) == Initial(first) + Initial(second)
    ensures GetInitials(Some(first + [' '] + second)) == Initial(first) + Initial(second)
  {
    var tail := Split(rest, ' ');
    SplitThenJoin(rest, ' ');
    var tokens := [first, second] + tail;
    assert Join(tokens, ' ') == first + [' '] + Join(tokens[1..], ' ');
    assert tokens[1..] == [second] + tail;
    assert Join(tokens[1..], ' ') == second + [' '] + Join(tail, ' ');
    assert first + [' '] + second + [' '] + rest == Join(tokens, ' ');
    InitialsOfTokens(tokens);
    assert Join([first, second], ' ') == first + [' '] + second;
    InitialsOfTokens([first, second]);
  }
}
