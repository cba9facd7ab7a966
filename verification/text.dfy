/** The three Go string primitives the log-line core relies on, as it uses them:
    strings.Fields (split on white space), strings.ReplaceAll with the tview
    bracket escape in both directions, and strings.Contains. */
module Text {

  /** Go's unicode.IsSpace: the Latin-1 white space characters and the Unicode
      White_Space characters above Latin-1. */
  predicate IsSpace(c: char) {
    || c == ' ' || c == '\t' || c == '\n' || c == '\U{000B}' || c == '\U{000C}' || c == '\r'
    || c == '\U{0085}' || c == '\U{00A0}' || c == '\U{1680}'
    || ('\U{2000}' <= c <= '\U{200A}')
    || c == '\U{2028}' || c == '\U{2029}' || c == '\U{202F}' || c == '\U{205F}' || c == '\U{3000}'
  }

  /** A token of strings.Fields: non-empty and free of white space. */
  predicate IsWord(w: string) {
    w != [] && forall i :: 0 <= i < |w| ==> !IsSpace(w[i])
  }

  /** Length of the run of non-space characters at the start of s. */
  function WordLength(s: string): (n: nat)
    ensures n <= |s|
    ensures forall i :: 0 <= i < n ==> !IsSpace(s[i])
    ensures n < |s| ==> IsSpace(s[n])
  {
    if s == [] || IsSpace(s[0]) then 0 else 1 + WordLength(s[1..])
  }

  /** strings.Fields: the maximal runs of non-space characters of s, in order. */
  function Fields(s: string): seq<string>
    decreases |s|
  {
    if s == [] then []
    else if IsSpace(s[0]) then Fields(s[1..])
    else
      var n := WordLength(s);
      [s[..n]] + Fields(s[n..])
  }

  /** Every token of Fields is non-empty and free of white space. */
  lemma {:induction false} FieldsAreWords(s: string)
    ensures forall i :: 0 <= i < |Fields(s)| ==> IsWord(Fields(s)[i])
    decreases |s|
  {
    if s == [] {
    } else if IsSpace(s[0]) {
      FieldsAreWords(s[1..]);
    } else {
      var n := WordLength(s);
      FieldsAreWords(s[n..]);
      assert Fields(s) == [s[..n]] + Fields(s[n..]);
    }
  }

  /** Leading white space does not change the tokens. */
  lemma {:induction false} FieldsSkipSpaces(gap: string, rest: string)
    requires forall i :: 0 <= i < |gap| ==> IsSpace(gap[i])
    ensures Fields(gap + rest) == Fields(rest)
  {
    if gap != [] {
      var s := gap + rest;
      assert s[0] == gap[0] && IsSpace(s[0]);
      assert s[1..] == gap[1..] + rest;
      assert Fields(s) == Fields(s[1..]);
      FieldsSkipSpaces(gap[1..], rest);
    } else {
      assert gap + rest == rest;
    }
  }

  /** A word followed by any non-empty run of white space is one token. */
  lemma FieldsAfterWord(w: string, gap: string, rest: string)
    requires IsWord(w) && gap != [] && forall i :: 0 <= i < |gap| ==> IsSpace(gap[i])
    ensures Fields(w + gap + rest) == [w] + Fields(rest)
  {
    var s := w + gap + rest;
    assert s == w + (gap + rest);
    WordLengthOfWord(w, gap + rest);
    assert s[..|w|] == w && s[|w|..] == gap + rest;
    FieldsSkipSpaces(gap, rest);
  }

  /** The words joined by single spaces (the inverse of Fields on words). */
  function JoinSpace(ws: seq<string>): string {
    if |ws| == 0 then ""
    else if |ws| == 1 then ws[0]
    else ws[0] + " " + JoinSpace(ws[1..])
  }

  lemma WordLengthOfWord(w: string, rest: string)
    requires IsWord(w)
    requires rest == [] || IsSpace(rest[0])
    ensures WordLength(w + rest) == |w|
  {
    var n := WordLength(w + rest);
    assert forall i :: 0 <= i < |w| ==> (w + rest)[i] == w[i];
    assert |w| < |w + rest| ==> (w + rest)[|w|] == rest[0];
  }

  /** Splitting words joined by single spaces gives the words back. */
  lemma {:induction false} FieldsJoinSpace(ws: seq<string>)
    requires forall i :: 0 <= i < |ws| ==> IsWord(ws[i])
    ensures Fields(JoinSpace(ws)) == ws
  {
    if |ws| == 0 {
    } else if |ws| == 1 {
      var w := ws[0];
      WordLengthOfWord(w, []);
      assert w + [] == w;
      assert w[|w|..] == [];
    } else {
      var w, tail := ws[0], JoinSpace(ws[1..]);
      var s := w + " " + tail;
      assert s == w + (" " + tail);
      WordLengthOfWord(w, " " + tail);
      assert s[..|w|] == w;
      assert s[|w|..] == " " + tail;
      assert (" " + tail)[1..] == tail;
      FieldsJoinSpace(ws[1..]);
    }
  }

  /** strings.ReplaceAll(s, "]", "[]"): the tview escape of a closing bracket. */
  function Escape(s: string): string {
    if s == [] then []
    else (if s[0] == ']' then "[]" else [s[0]]) + Escape(s[1..])
  }

  /** Escaping adds one character per ']' of s. */
  lemma {:induction false} EscapeLength(s: string)
    ensures |Escape(s)| == |s| + multiset(s)[']']
  {
    if s != [] {
      EscapeLength(s[1..]);
      assert s == [s[0]] + s[1..];
    }
  }

  /** Text without ']' is its own escape. */
  lemma {:induction false} EscapeWithoutBracket(s: string)
    requires ']' !in s
    ensures Escape(s) == s
  {
    if s != [] {
      assert s[0] != ']' && ']' !in s[1..];
      EscapeWithoutBracket(s[1..]);
    }
  }

  /** Every ']' of e directly follows a '[' (so none comes first). */
  predicate BracketsEscaped(e: string) {
    forall i :: 0 <= i < |e| && e[i] == ']' ==> 0 < i && e[i - 1] == '['
  }

  /** Escaped text holds no stray ']'. */
  lemma {:induction false} EscapedBracketsFollowOpen(s: string)
    ensures BracketsEscaped(Escape(s))
  {
    if s != [] {
      EscapedBracketsFollowOpen(s[1..]);
      var t := Escape(s[1..]);
      var head := if s[0] == ']' then "[]" else [s[0]];
      var e := head + t;
      assert Escape(s) == e;
      assert e[0] == head[0] && head[0] != ']';
      assert |head| == 2 ==> e[1] == ']' && e[0] == '[';
      forall i | 0 <= i < |e| && e[i] == ']' ensures 0 < i && e[i - 1] == '[' {
        if i > |head| {
          var k := i - |head|;
          assert e[i] == t[k] && e[i - 1] == t[k - 1];
          assert 0 < k < |t| && t[k] == ']';
          assert t[k - 1] == '[';
        }
      }
    }
  }

  /** Escaped text never starts with ']'. */
  lemma EscapeHead(s: string)
    ensures Escape(s) != [] ==> Escape(s)[0] != ']'
  {
  }

  lemma {:induction false} EscapeAppend(a: string, b: string)
    ensures Escape(a + b) == Escape(a) + Escape(b)
  {
    if a == [] {
      assert a + b == b;
    } else {
      assert (a + b)[0] == a[0];
      assert (a + b)[1..] == a[1..] + b;
      EscapeAppend(a[1..], b);
    }
  }

  /** strings.ReplaceAll(s, "[]", "]"): leftmost, non-overlapping replacement. */
  function Unescape(s: string): (r: string)
    ensures |r| <= |s|
  {
    if |s| >= 2 && s[0] == '[' && s[1] == ']' then "]" + Unescape(s[2..])
    else if s == [] then []
    else [s[0]] + Unescape(s[1..])
  }

  /** Undoing the escape gives back the original text. */
  lemma {:induction false} UnescapeEscape(s: string)
    ensures Unescape(Escape(s)) == s
  {
    if s != [] {
      var c, e := s[0], Escape(s[1..]);
      UnescapeEscape(s[1..]);
      var whole := Escape(s);
      if c == ']' {
        assert whole == "[]" + e;
        assert whole[2..] == e;
        assert Unescape(whole) == "]" + Unescape(e);
      } else {
        assert whole == [c] + e;
        assert whole[1..] == e;
        EscapeHead(s[1..]);
        assert !(|whole| >= 2 && whole[0] == '[' && whole[1] == ']');
        assert Unescape(whole) == [c] + Unescape(e);
      }
      assert s == [c] + s[1..];
    }
  }

  /** needle occurs in hay starting at position i. */
  predicate OccursAt(hay: string, needle: string, i: nat) {
    i + |needle| <= |hay| && hay[i..i + |needle|] == needle
  }

  /** strings.Contains(hay, needle). */
  function Contains(hay: string, needle: string): bool
    decreases |hay|
  {
    if needle <= hay then true
    else if hay == [] then false
    else Contains(hay[1..], needle)
  }

  /** Dropping the first character of hay moves every occurrence one place left. */
  lemma OccursShift(hay: string, needle: string, i: nat)
    requires hay != []
    ensures OccursAt(hay, needle, i + 1) <==> OccursAt(hay[1..], needle, i)
  {
    if i + 1 + |needle| <= |hay| {
      assert hay[1..][i..i + |needle|] == hay[i + 1..i + 1 + |needle|];
    }
  }

  /** Contains holds exactly when needle occurs somewhere in hay. */
  lemma {:induction false} ContainsOccurs(hay: string, needle: string)
    ensures Contains(hay, needle) <==> exists i: nat :: OccursAt(hay, needle, i)
    decreases |hay|
  {
    if needle <= hay {
      assert OccursAt(hay, needle, 0);
    } else if hay == [] {
    } else {
      ContainsOccurs(hay[1..], needle);
      if Contains(hay, needle) {
        var j: nat :| OccursAt(hay[1..], needle, j);
        OccursShift(hay, needle, j);
      } else {
        forall i: nat ensures !OccursAt(hay, needle, i) {
          if i > 0 {
            OccursShift(hay, needle, i - 1);
          }
        }
      }
    }
  }

  /** A needle holding a ']' that does not follow a '[' never occurs in escaped text. */
  lemma StrayBracketNeverInEscaped(s: string, needle: string, j: nat)
    requires 0 < j < |needle| && needle[j] == ']' && needle[j - 1] != '['
    ensures !Contains(Escape(s), needle)
  {
    var e := Escape(s);
    ContainsOccurs(e, needle);
    EscapedBracketsFollowOpen(s);
    forall i: nat | OccursAt(e, needle, i) ensures false {
    }
  }
}
