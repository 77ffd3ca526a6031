/** String operations of the Python standard library that the tracker uses,
    restricted to ASCII: lower-casing, substring search (`in`), `split` on one
    character, `join`, `strip`, `str(int)` and `int(str)`. */
module Text {
  import opened Wrappers

  // ---------------------------------------------------------------------------
  // Lower-casing (str.lower on ASCII)

  predicate IsAsciiUpper(c: char) {
    'A' <= c <= 'Z'
  }

  function LowerChar(c: char): char {
    if IsAsciiUpper(c) then (c as int + 32) as char else c
  }

  /** `s.lower()`, with only the ASCII letters A-Z folded. */
  function Lower(s: string): (r: string)
    ensures |r| == |s|
  {
    if s == [] then [] else [LowerChar(s[0])] + Lower(s[1..])
  }

  /** Lower-casing works character by character and leaves no ASCII
      upper-case letter. */
  lemma {:induction false} LowerChars(s: string)
    ensures forall i :: 0 <= i < |s| ==> Lower(s)[i] == LowerChar(s[i])
    ensures forall i :: 0 <= i < |s| ==> !IsAsciiUpper(Lower(s)[i])
  {
    if s != [] {
      LowerChars(s[1..]);
      assert forall i :: 1 <= i < |s| ==> Lower(s)[i] == Lower(s[1..])[i - 1];
    }
  }

  /** Lower-casing distributes over concatenation. */
  lemma {:induction false} LowerAppend(a: string, b: string)
    ensures Lower(a + b) == Lower(a) + Lower(b)
  {
    if a == [] {
      assert a + b == b;
    } else {
      assert (a + b)[0] == a[0];
      assert (a + b)[1..] == a[1..] + b;
      LowerAppend(a[1..], b);
    }
  }

  // ---------------------------------------------------------------------------
  // Substring test (Python's `needle in hay` on strings)

  /** needle occurs in hay at offset i. */
  predicate OccursAt(hay: string, needle: string, i: int) {
    0 <= i <= |hay| - |needle| && hay[i..i + |needle|] == needle
  }

  /** `needle in hay`: needle occurs somewhere in hay. */
  predicate Contains(hay: string, needle: string)
    decreases |hay|
  {
    needle <= hay || (hay != [] && Contains(hay[1..], needle))
  }

  /** Contains agrees with the positional definition of a substring:
      some offset i has hay[i..i+|needle|] == needle. */
  lemma ContainsIff(hay: string, needle: string)
    ensures Contains(hay, needle) <==> exists i :: OccursAt(hay, needle, i)
  {
    if Contains(hay, needle) {
      ContainsWitness(hay, needle);
    }
    if exists i :: OccursAt(hay, needle, i) {
      var i :| OccursAt(hay, needle, i);
      OccursContains(hay, needle, i);
    }
  }

  lemma {:induction false} ContainsWitness(hay: string, needle: string)
    requires Contains(hay, needle)
    ensures exists i :: OccursAt(hay, needle, i)
    decreases |hay|
  {
    if needle <= hay {
      assert OccursAt(hay, needle, 0);
    } else {
      ContainsWitness(hay[1..], needle);
      var i :| OccursAt(hay[1..], needle, i);
      assert hay[i + 1..i + 1 + |needle|] == hay[1..][i..i + |needle|];
      assert OccursAt(hay, needle, i + 1);
    }
  }

  lemma {:induction false} OccursContains(hay: string, needle: string, i: int)
    requires OccursAt(hay, needle, i)
    ensures Contains(hay, needle)
    decreases i
  {
    if i == 0 {
      assert hay[..|needle|] == needle;
    } else {
      assert hay[1..][i - 1..i - 1 + |needle|] == hay[i..i + |needle|];
      OccursContains(hay[1..], needle, i - 1);
    }
  }

  /** The empty string is a substring of every string. */
  lemma EmptyContained(hay: string)
    ensures Contains(hay, "")
  {
  }

  // ---------------------------------------------------------------------------
  // Splitting on one character and joining (str.split(c), sep.join(parts))

  /** Index of the first c in s, or |s| when there is none. */
  function IndexOf(s: string, c: char): (i: nat)
    ensures i <= |s|
    ensures i < |s| ==> s[i] == c
  {
    if s == [] || s[0] == c then 0 else 1 + IndexOf(s[1..], c)
  }

  /** IndexOf finds the first occurrence: there is no c before it. */
  lemma {:induction false} IndexOfFirst(s: string, c: char)
    ensures c !in s[..IndexOf(s, c)]
  {
    if s != [] && s[0] != c {
      IndexOfFirst(s[1..], c);
      assert s[..IndexOf(s, c)] == [s[0]] + s[1..][..IndexOf(s[1..], c)];
    }
  }

  /** `s.split(c)`: the pieces between occurrences of c; always at least one
      piece, and no piece contains c. */
  function Split(s: string, c: char): (r: seq<string>)
    ensures |r| >= 1
    decreases |s|
  {
    var i := IndexOf(s, c);
    if i == |s| then [s] else [s[..i]] + Split(s[i + 1..], c)
  }

  /** No piece of a split holds the separator. */
  lemma {:induction false} SplitPieces(s: string, c: char)
    ensures forall k :: 0 <= k < |Split(s, c)| ==> c !in Split(s, c)[k]
    decreases |s|
  {
    var i := IndexOf(s, c);
    IndexOfFirst(s, c);
    if i < |s| {
      SplitPieces(s[i + 1..], c);
      assert Split(s, c) == [s[..i]] + Split(s[i + 1..], c);
    }
  }

  /** A split has more than one piece exactly when the separator occurs. */
  lemma SplitCount(s: string, c: char)
    ensures c !in s ==> Split(s, c) == [s]
    ensures c in s ==> |Split(s, c)| >= 2
  {
    var i := IndexOf(s, c);
    IndexOfFirst(s, c);
    if c in s {
      var k :| 0 <= k < |s| && s[k] == c;
    }
  }

  /** `sep.join(parts)`. */
  function Join(sep: string, parts: seq<string>): string {
    if parts == [] then ""
    else if |parts| == 1 then parts[0]
    else parts[0] + sep + Join(sep, parts[1..])
  }

  /** Join of a first part followed by at least one more. */
  lemma JoinCons(sep: string, x: string, parts: seq<string>)
    requires parts != []
    ensures Join(sep, [x] + parts) == x + sep + Join(sep, parts)
  {
    assert ([x] + parts)[1..] == parts;
  }

  /** Joining the pieces of a split with the same character gives back the
      original string. */
  lemma {:induction false} JoinSplit(s: string, c: char)
    ensures Join([c], Split(s, c)) == s
    decreases |s|
  {
    var i := IndexOf(s, c);
    if i < |s| {
      var head, tail := s[..i], s[i + 1..];
      var rest := Split(tail, c);
      assert Split(s, c) == [head] + rest;
      JoinSplit(tail, c);
      JoinCons([c], head, rest);
      assert s == head + [c] + tail;
    }
  }

  /** Join distributes over a last extra part. */
  lemma {:induction false} JoinSnoc(sep: string, parts: seq<string>, x: string)
    requires parts != []
    ensures Join(sep, parts + [x]) == Join(sep, parts) + sep + x
  {
    if |parts| == 1 {
      assert parts + [x] == [parts[0], x];
    } else {
      assert (parts + [x])[1..] == parts[1..] + [x];
      JoinSnoc(sep, parts[1..], x);
    }
  }

  /** Every line followed by a newline. */
  function Unlines(lines: seq<string>): string {
    if lines == [] then "" else lines[0] + "\n" + Unlines(lines[1..])
  }

  /** Joining non-empty lines with newlines and ending with one is
      writing each line followed by a newline. */
  lemma {:induction false} JoinUnlines(lines: seq<string>)
    requires lines != []
    ensures Join("\n", lines) + "\n" == Unlines(lines)
  {
    if |lines| > 1 {
      JoinUnlines(lines[1..]);
    }
  }

  lemma {:induction false} UnlinesAppend(a: seq<string>, b: seq<string>)
    ensures Unlines(a + b) == Unlines(a) + Unlines(b)
  {
    if a == [] {
      assert a + b == b;
    } else {
      assert (a + b)[0] == a[0];
      assert (a + b)[1..] == a[1..] + b;
      UnlinesAppend(a[1..], b);
    }
  }

  /** The first c of head + [c] + tail, when head holds no c, follows head. */
  lemma {:induction false} IndexOfAfter(head: string, c: char, tail: string)
    requires c !in head
    ensures IndexOf(head + [c] + tail, c) == |head|
  {
    if head != [] {
      assert (head + [c] + tail)[1..] == head[1..] + [c] + tail;
      IndexOfAfter(head[1..], c, tail);
    }
  }

  lemma SplitAfter(head: string, c: char, tail: string)
    requires c !in head
    ensures Split(head + [c] + tail, c) == [head] + Split(tail, c)
  {
    var s := head + [c] + tail;
    IndexOfAfter(head, c, tail);
    assert s[..|head|] == head;
    assert s[|head| + 1..] == tail;
  }

  /** Splitting lines written with Unlines at newlines gives the lines back,
      followed by the empty text after the final newline, when no line
      holds a newline. */
  lemma {:induction false} SplitUnlines(lines: seq<string>)
    requires forall i :: 0 <= i < |lines| ==> '\n' !in lines[i]
    ensures Split(Unlines(lines), '\n') == lines + [""]
  {
    if lines == [] {
      SplitCount("", '\n');
    } else {
      var rest := lines[1..];
      assert forall i :: 0 <= i < |rest| ==> rest[i] == lines[i + 1];
      SplitUnlines(rest);
      UnlinesCons(lines);
      SplitAfter(lines[0], '\n', Unlines(rest));
      assert lines + [""] == [lines[0]] + (rest + [""]);
    }
  }

  lemma UnlinesCons(lines: seq<string>)
    requires lines != []
    ensures Unlines(lines) == lines[0] + ['\n'] + Unlines(lines[1..])
  {
  }

  predicate IsSuffix(t: string, s: string) {
    |t| <= |s| && s[|s| - |t|..] == t
  }

  /** The last piece of a split is a suffix of s holding no c, preceded by c
      unless it is the whole of s. */
  lemma SplitLast(s: string, c: char)
    ensures var p := Split(s, c);
            var last := p[|p| - 1];
            && IsSuffix(last, s)
            && (|s| == |last| || s[|s| - |last| - 1] == c)
  {
    JoinSplit(s, c);
    JoinLast(c, Split(s, c), s);
  }

  /** The last part of a join with c is a suffix of it, preceded by c
      unless it is the whole join. */
  lemma JoinLast(c: char, p: seq<string>, s: string)
    requires p != [] && s == Join([c], p)
    ensures var last := p[|p| - 1];
            && IsSuffix(last, s)
            && (|s| == |last| || s[|s| - |last| - 1] == c)
  {
    var last := p[|p| - 1];
    if |p| > 1 {
      var init := p[..|p| - 1];
      assert p == init + [last];
      JoinSnoc([c], init, last);
      var a := Join([c], init) + [c];
      assert s == a + last;
      assert s[|s| - |last|..] == last;
      assert s[|s| - |last| - 1] == a[|a| - 1];
    }
  }

  /** The piece before the last is what lies between the last two c, or
      between the start of s and the last c. */
  lemma SplitTail(s: string, c: char)
    requires c in s
    ensures |Split(s, c)| >= 2
    ensures var p := Split(s, c);
            var last := p[|p| - 1];
            var seg := p[|p| - 2];
            && IsSuffix(seg + [c] + last, s)
            && (|s| == |seg| + 1 + |last| || s[|s| - |seg| - |last| - 2] == c)
  {
    SplitCount(s, c);
    JoinSplit(s, c);
    JoinLastTwo(c, Split(s, c), s);
  }

  /** The last two parts of a join with c, with the c between them, are a
      suffix of it, preceded by c unless they make up the whole join. */
  lemma JoinLastTwo(c: char, p: seq<string>, s: string)
    requires |p| >= 2 && s == Join([c], p)
    ensures var last := p[|p| - 1];
            var seg := p[|p| - 2];
            && IsSuffix(seg + [c] + last, s)
            && (|s| == |seg| + 1 + |last| || s[|s| - |seg| - |last| - 2] == c)
  {
    var n := |p|;
    var last, seg := p[n - 1], p[n - 2];
    var t := seg + [c] + last;
    var init := p[..n - 1];
    assert p == init + [last];
    JoinSnoc([c], init, last);
    if n == 2 {
      assert init == [seg];
    } else {
      var init2 := p[..n - 2];
      assert init == init2 + [seg];
      JoinSnoc([c], init2, seg);
      var a := Join([c], init2) + [c];
      assert s == a + t;
      assert s[|s| - |t|..] == t;
      assert s[|s| - |t| - 1] == a[|a| - 1];
    }
  }

  /** The first piece of a split is a prefix of s holding no c, followed by c
      unless it is the whole of s. */
  lemma SplitFirst(s: string, c: char)
    ensures var f := Split(s, c)[0];
            && f <= s
            && (s == f || s[|f|] == c)
  {
  }

  // ---------------------------------------------------------------------------
  // Whitespace stripping (str.strip() on ASCII whitespace)

  /** The ASCII characters str.isspace() accepts: space, \t \n \v \f \r and
      the separators \x1c-\x1f. */
  predicate IsSpace(c: char) {
    c == ' ' || 9 <= c as int <= 13 || 28 <= c as int <= 31
  }

  function StripLeft(s: string): string {
    if s != [] && IsSpace(s[0]) then StripLeft(s[1..]) else s
  }

  function StripRight(s: string): string {
    if s != [] && IsSpace(s[|s| - 1]) then StripRight(s[..|s| - 1]) else s
  }

  /** `s.strip()`: s without its leading and trailing whitespace. */
  function Strip(s: string): string {
    StripRight(StripLeft(s))
  }

  /** StripLeft cuts a prefix of whitespace off s and leaves a string that
      does not start with whitespace. */
  lemma StripLeftEnds(s: string)
    ensures IsSuffix(StripLeft(s), s)
    ensures StripLeft(s) == [] || !IsSpace(StripLeft(s)[0])
    ensures forall i :: 0 <= i < |s| - |StripLeft(s)| ==> IsSpace(s[i])
  {
    StripLeftSuffix(s);
    StripLeftStart(s);
    StripLeftSpaces(s);
  }

  lemma {:induction false} StripLeftSuffix(s: string)
    ensures IsSuffix(StripLeft(s), s)
  {
    if s != [] && IsSpace(s[0]) {
      var t := s[1..];
      StripLeftSuffix(t);
      var r := StripLeft(t);
      assert s[|s| - |r|..] == t[|t| - |r|..];
    }
  }

  lemma {:induction false} StripLeftStart(s: string)
    ensures StripLeft(s) == [] || !IsSpace(StripLeft(s)[0])
  {
    if s != [] && IsSpace(s[0]) {
      StripLeftStart(s[1..]);
    }
  }

  lemma {:induction false} StripLeftSpaces(s: string)
    ensures forall i :: 0 <= i < |s| - |StripLeft(s)| ==> IsSpace(s[i])
  {
    if s != [] && IsSpace(s[0]) {
      var t := s[1..];
      StripLeftSpaces(t);
      forall i | 0 <= i < |s| - |StripLeft(t)| ensures IsSpace(s[i]) {
        if i > 0 { assert s[i] == t[i - 1]; }
      }
    }
  }

  /** StripRight cuts a suffix of whitespace off s and leaves a string that
      does not end with whitespace. */
  lemma StripRightEnds(s: string)
    ensures StripRight(s) <= s
    ensures StripRight(s) == [] || !IsSpace(StripRight(s)[|StripRight(s)| - 1])
    ensures forall i :: |StripRight(s)| <= i < |s| ==> IsSpace(s[i])
  {
    StripRightPrefix(s);
    StripRightEnd(s);
    StripRightSpaces(s);
  }

  lemma {:induction false} StripRightPrefix(s: string)
    ensures StripRight(s) <= s
  {
    if s != [] && IsSpace(s[|s| - 1]) {
      StripRightPrefix(s[..|s| - 1]);
    }
  }

  lemma {:induction false} StripRightEnd(s: string)
    ensures StripRight(s) == [] || !IsSpace(StripRight(s)[|StripRight(s)| - 1])
  {
    if s != [] && IsSpace(s[|s| - 1]) {
      StripRightEnd(s[..|s| - 1]);
    }
  }

  lemma {:induction false} StripRightSpaces(s: string)
    ensures forall i :: |StripRight(s)| <= i < |s| ==> IsSpace(s[i])
  {
    if s != [] && IsSpace(s[|s| - 1]) {
      var t := s[..|s| - 1];
      StripRightPrefix(t);
      StripRightSpaces(t);
      forall i | |StripRight(t)| <= i < |s| ensures IsSpace(s[i]) {
        if i < |s| - 1 { assert s[i] == t[i]; }
      }
    }
  }

  /** The strip of s neither starts nor ends with whitespace, and it is s
      with only whitespace cut off at its two ends. */
  lemma StripEnds(s: string)
    ensures var r := Strip(s);
            var k := |s| - |StripLeft(s)|;
            && (r == [] || (!IsSpace(r[0]) && !IsSpace(r[|r| - 1])))
            && 0 <= k && k + |r| <= |s| && s[k..k + |r|] == r
            && (forall i :: 0 <= i < k ==> IsSpace(s[i]))
            && (forall i :: k + |r| <= i < |s| ==> IsSpace(s[i]))
  {
    var l := StripLeft(s);
    StripLeftEnds(s);
    StripRightEnds(l);
    var r := Strip(s);
    var k := |s| - |l|;
    assert s[k..k + |r|] == l[..|r|] == r;
    forall i | k + |r| <= i < |s| ensures IsSpace(s[i]) {
      assert s[i] == l[i - k];
    }
  }

  /** A string without whitespace at either end is its own strip. */
  lemma StripUnchanged(s: string)
    requires s == [] || (!IsSpace(s[0]) && !IsSpace(s[|s| - 1]))
    ensures Strip(s) == s
  {
  }

  /** Stripping twice is stripping once. */
  lemma StripIdempotent(s: string)
    ensures Strip(Strip(s)) == Strip(s)
  {
    StripEnds(s);
    StripUnchanged(Strip(s));
  }

  // ---------------------------------------------------------------------------
  // Decimal conversion (str(n) and int(s))

  predicate IsDigit(c: char) {
    '0' <= c <= '9'
  }

  predicate AllDigits(s: string) {
    forall i :: 0 <= i < |s| ==> IsDigit(s[i])
  }

  function DigitChar(d: nat): (c: char)
    requires d < 10
    ensures IsDigit(c) && c as int - '0' as int == d
  {
    ('0' as int + d) as char
  }

  /** `str(n)` for a non-negative n: its decimal digits, most significant
      first, without leading zeros. */
  function NatToString(n: nat): (r: string)
    ensures |r| >= 1 && AllDigits(r)
    ensures r[0] == '0' ==> n == 0
  {
    if n < 10 then [DigitChar(n)] else NatToString(n / 10) + [DigitChar(n % 10)]
  }

  /** `str(n)` for any integer. */
  function IntToString(n: int): (r: string)
    ensures r != [] && !IsSpace(r[0]) && !IsSpace(r[|r| - 1])
  {
    if n < 0 then "-" + NatToString(-n) else NatToString(n)
  }

  /** The number a string of decimal digits denotes. */
  function DigitsValue(s: string): nat
    requires AllDigits(s)
  {
    if s == [] then 0 else DigitsValue(s[..|s| - 1]) * 10 + (s[|s| - 1] as int - '0' as int)
  }

  lemma {:induction false} DigitsValueOfNat(n: nat)
    ensures DigitsValue(NatToString(n)) == n
  {
    if n >= 10 {
      DigitsValueOfNat(n / 10);
      var s := NatToString(n);
      assert s[..|s| - 1] == NatToString(n / 10);
    }
  }

  /** The ASCII whitespace `int(s)` skips around the number: space and
      \t \n \v \f \r. Unlike `str.strip()`, it does not skip the
      separators \x1c-\x1f. */
  predicate IsIntSpace(c: char) {
    c == ' ' || 9 <= c as int <= 13
  }

  function IntTrimLeft(s: string): string {
    if s != [] && IsIntSpace(s[0]) then IntTrimLeft(s[1..]) else s
  }

  function IntTrimRight(s: string): string {
    if s != [] && IsIntSpace(s[|s| - 1]) then IntTrimRight(s[..|s| - 1]) else s
  }

  /** s without the whitespace `int(s)` skips at either end. */
  function IntTrim(s: string): string {
    IntTrimRight(IntTrimLeft(s))
  }

  /** Leading int-whitespace is all IntTrimLeft removes. */
  lemma {:induction false} IntTrimLeftPadded(pre: string, t: string)
    requires forall i :: 0 <= i < |pre| ==> IsIntSpace(pre[i])
    requires t == [] || !IsIntSpace(t[0])
    ensures IntTrimLeft(pre + t) == t
  {
    if pre != [] {
      assert (pre + t)[1..] == pre[1..] + t;
      IntTrimLeftPadded(pre[1..], t);
    }
  }

  /** Trailing int-whitespace is all IntTrimRight removes. */
  lemma {:induction false} IntTrimRightPadded(t: string, post: string)
    requires forall i :: 0 <= i < |post| ==> IsIntSpace(post[i])
    requires t == [] || !IsIntSpace(t[|t| - 1])
    ensures IntTrimRight(t + post) == t
  {
    if post != [] {
      assert (t + post)[..|t + post| - 1] == t + post[..|post| - 1];
      IntTrimRightPadded(t, post[..|post| - 1]);
    }
  }

  /** Trimming text padded with int-whitespace on both sides gives the text
      back, when it neither starts nor ends with such whitespace. */
  lemma IntTrimPadded(pre: string, x: string, post: string)
    requires forall i :: 0 <= i < |pre| ==> IsIntSpace(pre[i])
    requires forall i :: 0 <= i < |post| ==> IsIntSpace(post[i])
    requires x != [] && !IsIntSpace(x[0]) && !IsIntSpace(x[|x| - 1])
    ensures IntTrim(pre + x + post) == x
  {
    assert pre + x + post == pre + (x + post);
    IntTrimLeftPadded(pre, x + post);
    IntTrimRightPadded(x, post);
  }

  /** `int(s)` on ASCII text: optional surrounding whitespace, an optional
      sign and at least one decimal digit; None where Python raises
      ValueError. */
  function ParseInt(s: string): (r: Option<int>)
    ensures r.Some? <==> var t := IntTrim(s);
              t != [] && if t[0] in "+-" then |t| >= 2 && AllDigits(t[1..]) else AllDigits(t)
    ensures r.Some? ==> var t := IntTrim(s);
              var digits := if t[0] in "+-" then t[1..] else t;
              AllDigits(digits) && r.value == if t[0] == '-' then -(DigitsValue(digits) as int) else DigitsValue(digits)
  {
    var t := IntTrim(s);
    if t == [] then None
    else if t[0] == '-' || t[0] == '+' then
      var d := t[1..];
      if d != [] && AllDigits(d) then
        var v: int := DigitsValue(d);
        Some(if t[0] == '-' then -v else v)
      else None
    else if AllDigits(t) then Some(DigitsValue(t))
    else None
  }

  /** `int(s)` reads an optional sign and decimal digits, leading zeros
      included, surrounded by any of the whitespace it skips. */
  lemma ParseIntPadded(pre: string, sign: string, digits: string, post: string)
    requires forall i :: 0 <= i < |pre| ==> IsIntSpace(pre[i])
    requires forall i :: 0 <= i < |post| ==> IsIntSpace(post[i])
    requires sign == "" || sign == "+" || sign == "-"
    requires digits != [] && AllDigits(digits)
    ensures ParseInt(pre + sign + digits + post) ==
              Some(if sign == "-" then -(DigitsValue(digits) as int) else DigitsValue(digits))
  {
    assert IsDigit(digits[0]);
    assert pre + sign + digits + post == pre + (sign + digits) + post;
    IntTrimPadded(pre, sign + digits, post);
    ParseIntOfTrimmed(pre + sign + digits + post, sign, digits);
  }

  /** ParseInt of a text that trims to a sign and digits. */
  lemma ParseIntOfTrimmed(s: string, sign: string, digits: string)
    requires sign == "" || sign == "+" || sign == "-"
    requires digits != [] && AllDigits(digits)
    requires IntTrim(s) == sign + digits
    ensures ParseInt(s) ==
              Some(if sign == "-" then -(DigitsValue(digits) as int) else DigitsValue(digits))
  {
    var t := sign + digits;
    assert IsDigit(digits[0]);
    if sign != "" {
      assert t[0] == sign[0] && t[1..] == digits;
    } else {
      assert t == digits;
    }
  }

  /** A number preceded by a separator character that `str.strip()` would
      remove is not an integer for `int(s)`. */
  lemma ParseIntRejectsSeparator(digits: string)
    requires digits != [] && AllDigits(digits)
    ensures ParseInt([28 as char] + digits) == None
  {
    var s := [28 as char] + digits;
    assert !IsIntSpace(s[0]);
    assert IntTrimLeft(s) == s;
    assert !AllDigits(s) by { assert !IsDigit(s[0]); }
  }

  /** `int(str(n)) == n`. */
  lemma ParseIntOfString(n: int)
    ensures ParseInt(IntToString(n)) == Some(n)
  {
    var s := IntToString(n);
    assert IntTrim(s) == s;
    if n < 0 {
      var d := NatToString(-n);
      assert s == "-" + d;
      ParseIntOfTrimmed(s, "-", d);
      DigitsValueOfNat(-n);
    } else {
      var d := NatToString(n);
      assert s == "" + d;
      ParseIntOfTrimmed(s, "", d);
      DigitsValueOfNat(n);
    }
  }

  /** Distinct integers have distinct decimal forms. */
  lemma IntToStringInjective(m: int, n: int)
    requires IntToString(m) == IntToString(n)
    ensures m == n
  {
    ParseIntOfString(m);
    ParseIntOfString(n);
  }
}
