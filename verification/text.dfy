/**
 * The two string operations the tag path is built from: lower-casing a tag
 * (`String.toLowerCase`) and joining the tags with single spaces
 * (`String.join(" ", ...)`). `Split` is the inverse of `Join`, used to show that
 * a tag path determines the tags it was built from.
 */
module Text {

  predicate IsAsciiUpper(c: char) {
    'A' <= c <= 'Z'
  }

  /** The characters Java's `.` does not match (no DOTALL, no UNIX_LINES). */
  predicate IsLineTerminator(c: char) {
    c == '\n' || c == '\r' || c == '\U{85}' || c == '\U{2028}' || c == '\U{2029}'
  }

  /** Lower-cases one character; only the ASCII letters A-Z change. */
  function ToLower(c: char): (r: char)
    ensures !IsAsciiUpper(r)
    ensures IsAsciiUpper(c) ==> 'a' <= r <= 'z' && r as int - 'a' as int == c as int - 'A' as int
    ensures !IsAsciiUpper(c) ==> r == c
  {
    if IsAsciiUpper(c) then (c as int - 'A' as int + 'a' as int) as char else c
  }

  function LowerCase(s: string): (r: string)
    ensures |r| == |s|
  {
    seq(|s|, i requires 0 <= i < |s| => ToLower(s[i]))
  }

  /** Lower-casing never creates or removes a character that is not an upper-case letter, and is idempotent. */
  lemma LowerCaseKeeps(s: string)
    ensures forall i :: 0 <= i < |s| && !IsAsciiUpper(s[i]) ==> LowerCase(s)[i] == s[i]
    ensures forall i :: 0 <= i < |s| ==> !IsAsciiUpper(LowerCase(s)[i])
    ensures LowerCase(LowerCase(s)) == LowerCase(s)
  {
  }

  /** `String.join(" ", ws)`: the words separated by single spaces. */
  function Join(ws: seq<string>): (r: string)
  {
    if |ws| == 0 then ""
    else if |ws| == 1 then ws[0]
    else ws[0] + " " + Join(ws[1..])
  }

  /** Cuts a string at every space; the inverse of `Join`. Every string has at least one piece. */
  function Split(s: string): (r: seq<string>)
    ensures |r| >= 1
    decreases |s|
  {
    if s == [] then [""]
    else
      var rest := Split(s[1..]);
      if s[0] == ' ' then [""] + rest
      else [[s[0]] + rest[0]] + rest[1..]
  }

  predicate NoSpace(w: string) {
    ' ' !in w
  }

  predicate AllNoSpace(ws: seq<string>) {
    forall i :: 0 <= i < |ws| ==> NoSpace(ws[i])
  }

  /** The number of spaces in `s`. */
  function Spaces(s: string): nat {
    multiset(s)[' ']
  }

  /** Joining n space-free words puts exactly n - 1 spaces into the result (none for no words). */
  lemma {:induction false} JoinSpaces(ws: seq<string>)
    requires AllNoSpace(ws)
    ensures Spaces(Join(ws)) == if |ws| == 0 then 0 else |ws| - 1
  {
    if |ws| >= 2 {
      JoinSpaces(ws[1..]);
      assert multiset(Join(ws)) == multiset(ws[0]) + multiset(" ") + multiset(Join(ws[1..]));
    }
  }

  /** Two or more words always join into a string that contains a space. */
  lemma JoinHasSpace(ws: seq<string>)
    requires |ws| >= 2
    ensures ' ' in Join(ws)
  {
    assert Join(ws)[|ws[0]|] == ' ';
  }

  /** Splitting a space-free word gives back that word alone. */
  lemma {:induction false} SplitWord(w: string)
    requires NoSpace(w)
    ensures Split(w) == [w]
    decreases |w|
  {
    if w != [] {
      SplitWord(w[1..]);
      assert [w[0]] + w[1..] == w;
    }
  }

  /** Splitting a space-free word, a space and a rest gives the word followed by the pieces of the rest. */
  lemma {:induction false} SplitCons(w: string, t: string)
    requires NoSpace(w)
    ensures Split(w + " " + t) == [w] + Split(t)
    decreases |w|
  {
    if w == [] {
      assert w + " " + t == [' '] + t;
      assert (w + " " + t)[1..] == t;
    } else {
      SplitCons(w[1..], t);
      assert (w + " " + t)[1..] == w[1..] + " " + t;
      assert [w[0]] + w[1..] == w;
    }
  }

  /** Round trip: at least one space-free word, joined and then split, gives back the same words. */
  lemma {:induction false} SplitJoin(ws: seq<string>)
    requires |ws| >= 1 && AllNoSpace(ws)
    ensures Split(Join(ws)) == ws
  {
    if |ws| == 1 {
      SplitWord(ws[0]);
    } else {
      SplitJoin(ws[1..]);
      SplitCons(ws[0], Join(ws[1..]));
      assert [ws[0]] + ws[1..] == ws;
    }
  }

  /** Round trip the other way: splitting any string and joining the pieces gives back the string. */
  lemma {:induction false} JoinSplit(s: string)
    ensures Join(Split(s)) == s
    decreases |s|
  {
    if s != [] {
      var rest := Split(s[1..]);
      JoinSplit(s[1..]);
      if s[0] == ' ' {
        assert ([""] + rest)[1..] == rest;
        assert s == " " + s[1..];
      } else if |rest| == 1 {
        assert s == [s[0]] + s[1..];
      } else {
        assert rest == [rest[0]] + rest[1..];
        assert ([[s[0]] + rest[0]] + rest[1..])[1..] == rest[1..];
        assert s == [s[0]] + s[1..];
      }
    }
  }

  /** Joining is injective on non-empty lists of space-free words. */
  lemma JoinInjective(ws: seq<string>, vs: seq<string>)
    requires |ws| >= 1 && AllNoSpace(ws)
    requires |vs| >= 1 && AllNoSpace(vs)
    requires Join(ws) == Join(vs)
    ensures ws == vs
  {
    SplitJoin(ws);
    SplitJoin(vs);
  }
}
