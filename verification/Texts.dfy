/** The string operations of Foundation that the store uses. */
module Texts {

  /** CharacterSet.whitespacesAndNewlines. */
  predicate Blank(c: char) {
    || c == ' ' || '\t' <= c <= '\r' || c == '\U{85}' || c == '\U{A0}' || c == '\U{1680}'
    || '\U{2000}' <= c <= '\U{200A}' || c == '\U{2028}' || c == '\U{2029}' || c == '\U{202F}'
    || c == '\U{205F}' || c == '\U{3000}'
  }

  predicate AllBlank(s: string) {
    forall c :: c in s ==> Blank(c)
  }

  function TrimStart(s: string): (r: string)
    ensures |r| <= |s|
    ensures r == "" || !Blank(r[0])
    ensures r == "" <==> AllBlank(s)
  {
    if s == "" then ""
    else if Blank(s[0]) then assert s == [s[0]] + s[1..]; TrimStart(s[1..])
    else s
  }

  function TrimEnd(s: string): (r: string)
    ensures r <= s
    ensures r == "" <==> AllBlank(s)
    ensures r == "" || !Blank(r[|r| - 1])
  {
    if s == "" then ""
    else if Blank(s[|s| - 1]) then assert s == s[..|s| - 1] + [s[|s| - 1]]; TrimEnd(s[..|s| - 1])
    else s
  }

  /** trimmingCharacters(in: .whitespacesAndNewlines). */
  function Trim(s: string): (r: string)
    ensures r == "" <==> AllBlank(s)
    ensures r == "" || (!Blank(r[0]) && !Blank(r[|r| - 1]))
  {
    TrimEnd(TrimStart(s))
  }

  function WordLength(s: string): (n: nat)
    ensures n <= |s| && (s != "" && !Blank(s[0]) ==> n > 0)
    ensures AllBlank(s[..n]) ==> n == 0
  {
    if s == "" || Blank(s[0]) then 0
    else
      var n := 1 + WordLength(s[1..]);
      assert s[..n][0] == s[0];
      n
  }

  /** split(whereSeparator:): the maximal runs of other characters. */
  function Words(s: string): (ws: seq<string>)
    ensures ws == [] <==> AllBlank(s)
    ensures forall w :: w in ws ==> w != ""
    decreases |s|
  {
    var t := TrimStart(s);
    if t == "" then [] else
      var n := WordLength(t);
      [t[..n]] + Words(t[n..])
  }

  function Joined(parts: seq<string>, separator: string): string {
    if parts == [] then ""
    else if |parts| == 1 then parts[0]
    else parts[0] + separator + Joined(parts[1..], separator)
  }

  lemma {:induction false} JoinedHolds(parts: seq<string>, separator: string, i: nat, c: char)
    requires i < |parts| && c in parts[i]
    ensures c in Joined(parts, separator)
  {
    if |parts| > 1 && i > 0 {
      JoinedHolds(parts[1..], separator, i - 1, c);
    }
  }

  // ------------------------------------------------------------- what these do

  /** The whitespace and line ends of Unicode: tab to carriage return, the space, and the separators. */
  lemma BlankIs(c: char)
    ensures Blank(c) <==>
              c in ['\t', '\n', '\U{0B}', '\U{0C}', '\r', ' ', '\U{85}', '\U{A0}', '\U{1680}',
                    '\U{2000}', '\U{2001}', '\U{2002}', '\U{2003}', '\U{2004}', '\U{2005}', '\U{2006}', '\U{2007}',
                    '\U{2008}', '\U{2009}', '\U{200A}', '\U{2028}', '\U{2029}', '\U{202F}', '\U{205F}', '\U{3000}']
  {
  }

  /** Trimming takes blanks off both ends and nothing else. */
  lemma TrimIs(front: string, s: string, back: string)
    requires AllBlank(front) && AllBlank(back) && (s != "" ==> !Blank(s[0]) && !Blank(s[|s| - 1]))
    ensures Trim(front + s + back) == s
  {
    assert front + s + back == front + (s + back);
    SkipBlanks(front, s + back);
    if s == "" {
      assert s + back == back;
    } else {
      assert TrimStart(s + back) == s + back;
      DropBlanks(s, back);
    }
  }

  lemma {:induction false} SkipBlanks(front: string, s: string)
    requires AllBlank(front)
    ensures TrimStart(front + s) == TrimStart(s)
  {
    if front == "" {
      assert front + s == s;
    } else {
      assert (front + s)[1..] == front[1..] + s && front[0] in front;
      SkipBlanks(front[1..], s);
    }
  }

  lemma {:induction false} DropBlanks(s: string, back: string)
    requires AllBlank(back) && s != "" && !Blank(s[|s| - 1])
    ensures TrimEnd(s + back) == s
    decreases |back|
  {
    if back == "" {
      assert s + back == s;
    } else {
      var n := |back| - 1;
      assert (s + back)[..|s| + n] == s + back[..n] && back[n] in back;
      DropBlanks(s, back[..n]);
    }
  }

  /** The words of a text: a word and then a blank are that word and the words behind. */
  lemma WordsAre(front: string, word: string, c: char, rest: string)
    requires AllBlank(front) && word != "" && (forall x :: x in word ==> !Blank(x)) && Blank(c)
    ensures Words("") == [] && Words(front + word) == [word]
    ensures Words(front + word + [c] + rest) == [word] + Words(rest)
  {
    SkipBlanks(front, word);
    WordIsLong(word, "");
    assert word + "" == word && TrimStart(word) == word;
    assert word[|word|..] == "";
    assert front + word + [c] + rest == front + (word + ([c] + rest));
    FirstWordIs(front, word, c, rest);
  }

  lemma FirstWordIs(front: string, word: string, c: char, rest: string)
    requires AllBlank(front) && word != "" && (forall x :: x in word ==> !Blank(x)) && Blank(c)
    ensures Words(front + (word + ([c] + rest))) == [word] + Words(rest)
  {
    var tail := [c] + rest;
    SkipBlanks(front, word + tail);
    WordIsLong(word, tail);
    assert TrimStart(word + tail) == word + tail;
    assert (word + tail)[..|word|] == word && (word + tail)[|word|..] == tail;
    SkipBlanks([c], rest);
    WordsTrimmed(tail, rest);
  }

  lemma WordsTrimmed(a: string, b: string)
    requires TrimStart(a) == TrimStart(b)
    ensures Words(a) == Words(b)
  {
  }

  lemma {:induction false} WordIsLong(word: string, tail: string)
    requires (forall x :: x in word ==> !Blank(x)) && (tail == "" || Blank(tail[0]))
    ensures WordLength(word + tail) == |word|
    decreases |word|
  {
    if word == "" {
      assert word + tail == tail;
    } else {
      assert (word + tail)[1..] == word[1..] + tail && word[0] in word;
      WordIsLong(word[1..], tail);
    }
  }

  /** Parts are joined in order, with the separator between any two. */
  lemma {:induction false} JoinedOrder(parts: seq<string>, last: string, separator: string)
    ensures Joined([], separator) == "" && Joined([last], separator) == last
    ensures parts != [] ==> Joined(parts + [last], separator) == Joined(parts, separator) + separator + last
  {
    assert [last] == [] + [last];
    if |parts| == 1 {
      assert (parts + [last])[1..] == [last];
    } else if |parts| > 1 {
      assert (parts + [last])[1..] == parts[1..] + [last];
      JoinedOrder(parts[1..], last, separator);
    }
  }

  // -------------------------------------------------------- words of trimmed texts

  lemma TrimmedWords(s: string)
    ensures Words(Trim(s)) == Words(s)
  {
    var t := TrimStart(s);
    WordsTrimmed(t, s) by { TrimStartTwice(s); }
    WordsOfFront(t);
  }

  lemma {:induction false} TrimStartTwice(s: string)
    ensures TrimStart(TrimStart(s)) == TrimStart(s)
  {
    if s != "" && Blank(s[0]) { TrimStartTwice(s[1..]); }
  }

  lemma {:induction false} TrimEndCuts(s: string)
    ensures TrimEnd(s) <= s && AllBlank(s[|TrimEnd(s)|..])
  {
    if s != "" && Blank(s[|s| - 1]) {
      var t := s[..|s| - 1];
      TrimEndCuts(t);
      assert s[|TrimEnd(s)|..] == t[|TrimEnd(t)|..] + [s[|s| - 1]];
    }
  }

  lemma WordsOfFront(s: string)
    ensures Words(TrimEnd(s)) == Words(s)
  {
    hide Words, TrimEnd;
    TrimEndCuts(s);
    var t := TrimEnd(s);
    assert s == t + s[|t|..];
    WordsBlankEnd(t, s[|t|..]);
  }

  /** Blanks behind a text change none of its words. */
  lemma {:induction false} WordsBlankEnd(s: string, back: string)
    requires AllBlank(back)
    ensures Words(s + back) == Words(s)
    decreases |s|
  {
    var t := TrimStart(s);
    TrimStartAppend(s, back);
    if t == "" {
      assert AllBlank(s + back);
    } else {
      WordLengthAppend(t, back);
      var n := WordLength(t);
      assert (t + back)[..n] == t[..n] && (t + back)[n..] == t[n..] + back;
      WordsBlankEnd(t[n..], back);
    }
  }

  lemma {:induction false} TrimStartAppend(s: string, back: string)
    requires AllBlank(back)
    ensures TrimStart(s + back) == if AllBlank(s) then "" else TrimStart(s) + back
  {
    if s == "" {
      assert s + back == back;
    } else {
      assert (s + back)[0] == s[0] && (s + back)[1..] == s[1..] + back;
      assert s == [s[0]] + s[1..];
      if Blank(s[0]) { TrimStartAppend(s[1..], back); } else { assert s[0] in s; }
    }
  }

  lemma {:induction false} WordLengthAppend(s: string, back: string)
    requires AllBlank(back)
    ensures WordLength(s + back) == WordLength(s)
  {
    if s == "" {
      assert s + back == back;
      if back != "" { assert back[0] in back; }
    } else {
      assert (s + back)[0] == s[0] && (s + back)[1..] == s[1..] + back;
      if !Blank(s[0]) { WordLengthAppend(s[1..], back); }
    }
  }
}
