/** The handful of string operations of Rust's standard library that the puzzles
    lean on (`split`, `split_whitespace`, `trim`, `parse::<usize>`), on ASCII text
    held as `seq<char>`. */
module Text {

  datatype Option<T> = None | Some(value: T)

  predicate IsDigit(c: char) { '0' <= c <= '9' }

  /** ASCII whitespace as `char::is_whitespace` sees it. */
  predicate IsWhitespace(c: char)
  {
    c == ' ' || c == '\t' || c == '\n' || c == '\r' || c == '\U{B}' || c == '\U{C}'
  }

  predicate AllDigits(s: seq<char>)
  {
    forall i :: 0 <= i < |s| ==> IsDigit(s[i])
  }

  function DigitValue(c: char): (d: nat)
    requires IsDigit(c)
    ensures d < 10
  {
    (c as int - '0' as int) as nat
  }

  function DigitChar(d: nat): (c: char)
    requires d < 10
    ensures IsDigit(c) && DigitValue(c) == d
  {
    ('0' as int + d) as char
  }

  /** The decimal value of a string of digits, most significant first. */
  function DigitsValue(s: seq<char>): nat
    requires AllDigits(s)
  {
    if |s| == 0 then 0 else 10 * DigitsValue(s[..|s| - 1]) + DigitValue(s[|s| - 1])
  }

  /** `str::parse::<usize>`: an optional '+' followed by at least one digit. */
  function ParseNat(s: seq<char>): (r: Option<nat>)
    ensures r.Some? <==> (|s| > 0 && s[0] != '+' && AllDigits(s)) || (|s| > 1 && s[0] == '+' && AllDigits(s[1..]))
  {
    var digits := if |s| > 0 && s[0] == '+' then s[1..] else s;
    if |digits| > 0 && AllDigits(digits) then Some(DigitsValue(digits)) else None
  }

  lemma ParseOneDigit(c: char)
    requires IsDigit(c)
    ensures ParseNat([c]) == Some(DigitValue(c))
  {
    assert [c][..0] == [] && [c][0] == c;
    assert AllDigits([c]);
    assert DigitsValue([c]) == DigitValue(c);
  }

  lemma ParseTwoDigits(c: char, d: char)
    requires IsDigit(c) && IsDigit(d)
    ensures ParseNat([c, d]) == Some(10 * DigitValue(c) + DigitValue(d))
  {
    ParseOneDigit(c);
    assert [c, d][..1] == [c] && [c, d][1] == d;
    assert AllDigits([c, d]);
    assert DigitsValue([c, d]) == 10 * DigitValue(c) + DigitValue(d);
  }

  /** Parses every string of `ss`; None when one of them is not a number. */
  function ParseAll(ss: seq<seq<char>>): (r: Option<seq<nat>>)
    ensures r.Some? <==> forall i :: 0 <= i < |ss| ==> ParseNat(ss[i]).Some?
    ensures r.Some? ==> |r.value| == |ss| && forall i :: 0 <= i < |ss| ==> r.value[i] == ParseNat(ss[i]).value
  {
    if ss == [] then Some([])
    else
      match (ParseNat(ss[0]), ParseAll(ss[1..]))
      case (Some(n), Some(ns)) => Some([n] + ns)
      case _ => None
  }

  /** Parsing all but the first string. */
  lemma ParseAllTail(ss: seq<seq<char>>)
    requires |ss| >= 1
    ensures ParseAll(ss[1..]).Some? <==> forall i :: 1 <= i < |ss| ==> ParseNat(ss[i]).Some?
    ensures ParseAll(ss[1..]).Some? ==>
              forall i :: 0 <= i < |ss| - 1 ==> ParseAll(ss[1..]).value[i] == ParseNat(ss[i + 1]).value
  {
    var rest := ss[1..];
    assert forall i :: 1 <= i < |ss| ==> ss[i] == rest[i - 1];
  }

  /** `str::split(sep)`: the pieces between separators, empty pieces included. */
  function Split(s: seq<char>, sep: char): (parts: seq<seq<char>>)
    ensures |parts| >= 1
    ensures forall i :: 0 <= i < |parts| ==> sep !in parts[i]
  {
    if s == [] then [[]]
    else
      var rest := Split(s[1..], sep);
      if s[0] == sep then [[]] + rest else [[s[0]] + rest[0]] + rest[1..]
  }

  /** Puts the pieces back together with the separator between them. */
  function Join(parts: seq<seq<char>>, sep: char): seq<char>
    requires |parts| >= 1
  {
    if |parts| == 1 then parts[0] else parts[0] + [sep] + Join(parts[1..], sep)
  }

  lemma {:induction false} JoinSplit(s: seq<char>, sep: char)
    ensures Join(Split(s, sep), sep) == s
  {
    if s != [] {
      JoinSplit(s[1..], sep);
      var rest := Split(s[1..], sep);
      if s[0] != sep {
        if |rest| == 1 {
          assert Join(Split(s, sep), sep) == [s[0]] + rest[0];
        } else {
          assert Split(s, sep)[1..] == rest[1..];
          assert Join(Split(s, sep), sep) == [s[0]] + rest[0] + [sep] + Join(rest[1..], sep);
        }
      }
    }
  }

  /** Text without the separator is one piece. */
  lemma {:induction false} SplitNone(s: seq<char>, sep: char)
    requires sep !in s
    ensures Split(s, sep) == [s]
  {
    if s != [] {
      SplitNone(s[1..], sep);
      assert [s[0]] + s[1..] == s;
    }
  }

  /** The first separator ends the first piece; the rest is split on its own. */
  lemma {:induction false} SplitFirst(a: seq<char>, sep: char, b: seq<char>)
    requires sep !in a
    ensures Split(a + [sep] + b, sep) == [a] + Split(b, sep)
  {
    if a == [] {
      assert a + [sep] + b == [sep] + b;
      assert ([sep] + b)[1..] == b;
    } else {
      assert (a + [sep] + b)[1..] == a[1..] + [sep] + b;
      SplitFirst(a[1..], sep, b);
      assert [a[0]] + a[1..] == a;
    }
  }

  /** Text with something other than whitespace at both ends. */
  predicate Solid(s: seq<char>)
  {
    |s| > 0 && !IsWhitespace(s[0]) && !IsWhitespace(s[|s| - 1])
  }

  /** Solid text is its own trim. */
  lemma TrimSolid(s: seq<char>)
    requires Solid(s)
    ensures Trim(s) == s
  {
  }

  /** Leading whitespace does not change the trim. */
  lemma TrimLead(c: char, s: seq<char>)
    requires IsWhitespace(c)
    ensures Trim([c] + s) == Trim(s)
  {
    assert ([c] + s)[1..] == s;
  }

  /** A non-empty sequence is its prefix and its last element. */
  lemma SnocLast<X>(s: seq<X>, n: nat)
    requires n + 1 == |s|
    ensures s[..n] + [s[n]] == s
  {
  }

  /** Concatenation is associative. */
  lemma AppendAssoc<X>(a: seq<X>, b: seq<X>, c: seq<X>)
    ensures a + (b + c) == (a + b) + c
  {
  }

  /** A prefix of a prefix is a prefix. */
  lemma PrefixPrefix<X>(s: seq<X>, i: nat, j: nat)
    requires i <= j <= |s|
    ensures s[..j][..i] == s[..i]
  {
  }

  /** Trailing whitespace does not change the trim of text that starts solid. */
  lemma TrimTrail(s: seq<char>, c: char)
    requires |s| > 0 && !IsWhitespace(s[0]) && IsWhitespace(c)
    ensures Trim(s + [c]) == Trim(s)
  {
    assert (s + [c])[..|s|] == s;
  }

  /** A line "heading: rest" trims to itself and splits at the colon into the
      heading and the rest with its leading space. */
  lemma ColonHalves(heading: seq<char>, rest: seq<char>)
    requires Solid(heading) && Solid(rest) && ':' !in heading && ':' !in rest
    ensures Split(Trim(heading + ": " + rest), ':') == [heading, " " + rest]
  {
    var line := heading + ": " + rest;
    assert line == heading + [':'] + (" " + rest);
    TrimSolid(line);
    SplitFirst(heading, ':', " " + rest);
    SplitNone(" " + rest, ':');
  }

  /** `str::split_whitespace`: the maximal runs of non-whitespace characters. */
  function Words(s: seq<char>): (ws: seq<seq<char>>)
    ensures forall i :: 0 <= i < |ws| ==> |ws[i]| > 0 && forall j :: 0 <= j < |ws[i]| ==> !IsWhitespace(ws[i][j])
    ensures |s| > 0 && !IsWhitespace(s[0]) ==> |ws| > 0 && ws[0][0] == s[0]
  {
    if s == [] then []
    else
      var rest := Words(s[1..]);
      if IsWhitespace(s[0]) then rest
      else if |s| > 1 && !IsWhitespace(s[1]) then [[s[0]] + rest[0]] + rest[1..]
      else [[s[0]]] + rest
  }

  predicate IsWord(w: seq<char>)
  {
    |w| > 0 && forall j :: 0 <= j < |w| ==> !IsWhitespace(w[j])
  }

  /** A word followed by nothing or by whitespace is the first word. */
  lemma {:induction false} WordsLead(w: seq<char>, rest: seq<char>)
    requires IsWord(w)
    requires rest == [] || IsWhitespace(rest[0])
    ensures Words(w + rest) == [w] + Words(rest)
    decreases |w|
  {
    assert (w + rest)[1..] == w[1..] + rest;
    if |w| == 1 {
      assert w == [w[0]];
    } else {
      WordsLead(w[1..], rest);
      assert [w[0]] + w[1..] == w;
    }
  }

  /** Words separated by single spaces split back into the same words. */
  lemma {:induction false} WordsJoin(ws: seq<seq<char>>)
    requires |ws| >= 1 && forall i :: 0 <= i < |ws| ==> IsWord(ws[i])
    ensures Words(Join(ws, ' ')) == ws
    decreases |ws|
  {
    if |ws| == 1 {
      WordsLead(ws[0], []);
      assert ws[0] + [] == ws[0];
    } else {
      var tail := Join(ws[1..], ' ');
      WordsJoin(ws[1..]);
      WordsLead(ws[0], [' '] + tail);
      assert ws[0] + [' '] + tail == ws[0] + ([' '] + tail);
      assert ([' '] + tail)[1..] == tail;
      assert [ws[0]] + ws[1..] == ws;
    }
  }

  function TrimStart(s: seq<char>): (t: seq<char>)
    ensures |t| <= |s| && t == s[|s| - |t|..]
    ensures t == [] || !IsWhitespace(t[0])
  {
    if s != [] && IsWhitespace(s[0]) then TrimStart(s[1..]) else s
  }

  function TrimEnd(s: seq<char>): (t: seq<char>)
    ensures |t| <= |s| && t == s[..|t|]
    ensures t == [] || !IsWhitespace(t[|t| - 1])
  {
    if s != [] && IsWhitespace(s[|s| - 1]) then TrimEnd(s[..|s| - 1]) else s
  }

  /** `str::trim`. */
  function Trim(s: seq<char>): seq<char>
  {
    TrimEnd(TrimStart(s))
  }

  /** The `n`-th piece of `split(sep)`, or None when there are fewer pieces
      (`split(sep).nth(n)`). */
  function Piece(s: seq<char>, sep: char, n: nat): Option<seq<char>>
  {
    var parts := Split(s, sep);
    if n < |parts| then Some(parts[n]) else None
  }

  /** The `n`th piece of a text whose pieces are known. */
  lemma PieceOf(s: seq<char>, sep: char, parts: seq<seq<char>>, n: nat)
    requires Split(s, sep) == parts && n < |parts|
    ensures Piece(s, sep, n) == Some(parts[n])
  {
  }

  /** `str::split_once(char::is_whitespace)`: the text before and after the first
      whitespace character, which is dropped; None when there is none. */
  function SplitOnceWhitespace(s: seq<char>): (r: Option<(seq<char>, seq<char>)>)
    ensures r.None? <==> forall i :: 0 <= i < |s| ==> !IsWhitespace(s[i])
    ensures r.Some? ==> |r.value.0| < |s| && IsWhitespace(s[|r.value.0|]) &&
                        (forall i :: 0 <= i < |r.value.0| ==> !IsWhitespace(r.value.0[i])) &&
                        s == r.value.0 + [s[|r.value.0|]] + r.value.1
  {
    if s == [] then None
    else if IsWhitespace(s[0]) then Some(([], s[1..]))
    else match SplitOnceWhitespace(s[1..])
      case None => None
      case Some((head, tail)) => Some(([s[0]] + head, tail))
  }

  /** `str::replace(c, "")` for a one-character pattern: every `c` removed. */
  function Remove(s: seq<char>, c: char): (t: seq<char>)
    ensures c !in t && |t| <= |s|
    ensures forall x :: x != c ==> multiset(t)[x] == multiset(s)[x]
  {
    if s == [] then []
    else
      assert s == [s[0]] + s[1..];
      if s[0] == c then Remove(s[1..], c) else [s[0]] + Remove(s[1..], c)
  }

  /** Leading whitespace is skipped. */
  lemma {:induction false} WordsSkip(blank: seq<char>, rest: seq<char>)
    requires forall i :: 0 <= i < |blank| ==> IsWhitespace(blank[i])
    ensures Words(blank + rest) == Words(rest)
    decreases |blank|
  {
    if blank != [] {
      assert (blank + rest)[1..] == blank[1..] + rest;
      WordsSkip(blank[1..], rest);
    } else {
      assert blank + rest == rest;
    }
  }

  /** Text without whitespace is a single word, or none when empty. */
  lemma {:induction false} WordsNoWhitespace(s: seq<char>)
    requires forall i :: 0 <= i < |s| ==> !IsWhitespace(s[i])
    ensures Words(s) == if s == [] then [] else [s]
  {
    if s != [] {
      WordsLead(s, []);
      assert s + [] == s;
    }
  }

  /** Two words joined by one space split back into the two. */
  lemma WordsPair(a: seq<char>, b: seq<char>)
    requires IsWord(a) && IsWord(b)
    ensures Words(a + " " + b) == [a, b]
  {
    WordsLead(a, " " + b);
    WordsSkip(" ", b);
    WordsNoWhitespace(b);
    assert a + " " + b == a + (" " + b);
  }

  /** A string of digits without sign parses to its value. */
  lemma ParseDigits(s: seq<char>)
    requires |s| > 0 && AllDigits(s)
    ensures ParseNat(s) == Some(DigitsValue(s))
  {
    assert IsDigit(s[0]);
  }

  /** The split happens at the first whitespace character. */
  lemma {:induction false} SplitOnceLead(head: seq<char>, rest: seq<char>)
    requires forall i :: 0 <= i < |head| ==> !IsWhitespace(head[i])
    requires rest != [] && IsWhitespace(rest[0])
    ensures SplitOnceWhitespace(head + rest) == Some((head, rest[1..]))
    decreases |head|
  {
    if head != [] {
      assert (head + rest)[1..] == head[1..] + rest;
      SplitOnceLead(head[1..], rest);
      assert [head[0]] + head[1..] == head;
    } else {
      assert head + rest == rest;
    }
  }

  lemma {:induction false} RemoveAppend(a: seq<char>, b: seq<char>, c: char)
    ensures Remove(a + b, c) == Remove(a, c) + Remove(b, c)
    decreases |a|
  {
    if a != [] {
      assert (a + b)[1..] == a[1..] + b;
      RemoveAppend(a[1..], b, c);
      if a[0] != c {
        assert [a[0]] + Remove(a[1..], c) + Remove(b, c) == [a[0]] + (Remove(a[1..], c) + Remove(b, c));
      }
    } else {
      assert a + b == b;
    }
  }

  /** Appending a digit multiplies by ten and adds it. */
  lemma DigitsSnoc(s: seq<char>, d: char)
    requires AllDigits(s) && IsDigit(d)
    ensures AllDigits(s + [d]) && DigitsValue(s + [d]) == 10 * DigitsValue(s) + DigitValue(d)
  {
    assert (s + [d])[..|s|] == s;
  }

  /** `str::ends_with`. */
  predicate EndsWith(s: seq<char>, suffix: seq<char>)
  {
    |suffix| <= |s| && s[|s| - |suffix|..] == suffix
  }
}
