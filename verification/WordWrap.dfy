// The wrapping of descriptions in construct_constants.py: the words of a definition and of the
// comment lines after it become the strings of a table, each as long as fits.
module WordWrap {

  const LINESIZE: nat := 53

  // ---- words -----------------------------------------------------------------------------------

  function EscapeChar(c: char): string {
    if c == '"' then "\\\"" else [c]
  }

  // The characters of a text from a up to b, with quotes escaped.
  function Escaped(text: string, a: nat, b: nat): string
    requires a <= b <= |text|
  {
    if a == b then "" else Escaped(text, a, b - 1) + EscapeChar(text[b - 1])
  }

  function Escape(word: string): string {
    Escaped(word, 0, |word|)
  }

  // Where the word that k is in ends.
  function WordEnd(line: string, k: nat): (e: nat)
    requires k <= |line|
    ensures k <= e <= |line| && (e < |line| ==> line[e] == ' ')
    ensures forall j :: k <= j < e ==> line[j] != ' '
    decreases |line| - k
  {
    if k == |line| || line[k] == ' ' then k else WordEnd(line, k + 1)
  }

  // The words from k on, escaped. Two spaces have an empty word between them.
  function Words(line: string, k: nat): seq<string>
    decreases |line| - k
  {
    if k >= |line| then []
    else [Escaped(line, k, WordEnd(line, k))] + Words(line, WordEnd(line, k) + 1)
  }

  // Where the text of a comment line begins.
  function Margin(line: string, m: nat): (r: nat)
    requires m <= |line|
    ensures m <= r <= |line| && (r < |line| ==> line[r] != '/' && line[r] != ' ')
    ensures forall j :: m <= j < r ==> line[j] == '/' || line[j] == ' '
    decreases |line| - m
  {
    if m < |line| && (line[m] == '/' || line[m] == ' ') then Margin(line, m + 1) else m
  }

  // A comment line with a text, stripped of white space at both ends.
  predicate CommentLine(line: string) {
    line != "" && line[0] == '/' && line[|line| - 1] != ' ' && Margin(line, 1) < |line|
  }

  // The words of the text of a comment line.
  function TextWords(line: string): (words: seq<string>)
    requires CommentLine(line)
    ensures words != []
  {
    Words(line, Margin(line, 1))
  }

  predicate SingleCharacter(line: string)
    requires CommentLine(line)
  {
    Margin(line, 1) + 1 == |line|
  }

  // The words that a comment line adds. A text of a single character is left out.
  function LineWords(line: string): seq<string>
    requires CommentLine(line)
  {
    if SingleCharacter(line) then [] else TextWords(line)
  }

  predicate CommentLines(lines: seq<string>) {
    forall i :: 0 <= i < |lines| ==> CommentLine(lines[i])
  }

  function AllLineWords(lines: seq<string>): seq<string>
    requires CommentLines(lines)
  {
    if lines == [] then [] else LineWords(lines[0]) + AllLineWords(lines[1..])
  }

  function AllTextWords(lines: seq<string>): seq<string>
    requires CommentLines(lines)
  {
    if lines == [] then [] else TextWords(lines[0]) + AllTextWords(lines[1..])
  }

  predicate NoneSingle(lines: seq<string>)
    requires CommentLines(lines)
  {
    lines == [] || (!SingleCharacter(lines[0]) && NoneSingle(lines[1..]))
  }

  // No word of the comment lines gets lost exactly when none has a text of a single character.
  lemma {:induction false} WordsKept(lines: seq<string>)
    requires CommentLines(lines)
    ensures |AllLineWords(lines)| <= |AllTextWords(lines)|
    ensures AllLineWords(lines) == AllTextWords(lines) <==> NoneSingle(lines)
  {
    if lines != [] {
      WordsKept(lines[1..]);
      ConcatEqual(LineWords(lines[0]), AllLineWords(lines[1..]), TextWords(lines[0]), AllTextWords(lines[1..]));
    }
  }

  lemma ConcatEqual(a: seq<string>, b: seq<string>, c: seq<string>, d: seq<string>)
    requires (a == c || a == []) && |b| <= |d| && c != []
    ensures a + b == c + d <==> a == c && b == d
  {
    if a + b == c + d {
      assert |a| == |c|;
      assert a == (a + b)[..|a|] && b == (a + b)[|a|..];
      assert c == (c + d)[..|c|] && d == (c + d)[|c|..];
    }
  }

  function TokenWords(tokens: seq<string>): (words: seq<string>)
    ensures |words| == |tokens| && forall i :: 0 <= i < |words| ==> words[i] == Escape(tokens[i])
  {
    if tokens == [] then [] else [Escape(tokens[0])] + TokenWords(tokens[1..])
  }

  // The one word of this comment line gets lost.
  lemma LostWord()
    ensures CommentLine("// a") && TextWords("// a") == ["a"] && LineWords("// a") == []
  {
    var line := "// a";
    assert Margin(line, 3) == 3 && Margin(line, 2) == 3 && Margin(line, 1) == 3;
    assert WordEnd(line, 4) == 4 && WordEnd(line, 3) == 4;
    assert Escaped(line, 3, 4) == Escaped(line, 3, 3) + EscapeChar('a') == "a";
    assert Words(line, 5) == [];
  }

  // ---- wrapping --------------------------------------------------------------------------------

  // What has been written, and the text that is not written yet.
  datatype Wrapped = Wrapped(out: seq<string>, desc: string)

  // One word joins the text, or starts a new one if it does not fit.
  function Put(w: Wrapped, word: string): Wrapped {
    if |word| + |w.desc| + 1 > LINESIZE then Wrapped(w.out + [w.desc], word)
    else if w.desc == "" then w.(desc := word)
    else w.(desc := w.desc + " " + word)
  }

  // A pending text that is empty takes the place of no words: a word that fits replaces it, and before
  // one that does not an empty string is written.
  lemma PutAfterEmpty(out: seq<string>, word: string)
    ensures Put(Wrapped(out, ""), word) == if |word| <= 52 then Wrapped(out, word) else Wrapped(out + [""], word)
  {
  }

  function PutAll(w: Wrapped, words: seq<string>): Wrapped
    decreases |words|
  {
    if words == [] then w else PutAll(Put(w, words[0]), words[1..])
  }

  function Flush(w: Wrapped): seq<string> {
    if w.desc == "" then w.out else w.out + [w.desc]
  }

  lemma {:induction false} PutAllConcat(w: Wrapped, s: seq<string>, t: seq<string>)
    ensures PutAll(w, s + t) == PutAll(PutAll(w, s), t)
    decreases |s|
  {
    if s == [] {
      assert s + t == t;
    } else {
      assert (s + t)[1..] == s[1..] + t;
      PutAllConcat(Put(w, s[0]), s[1..], t);
    }
  }

  // The loop over the tokens of the definition.
  method WrapTokens(tokens: seq<string>) returns (w: Wrapped)
    requires tokens != [] && forall i :: 0 <= i < |tokens| ==> tokens[i] != ""
    ensures w == PutAll(Wrapped([], Escape(tokens[0])), TokenWords(tokens[1..]))
  {
    var out, desc := [], Escape(tokens[0]);
    var m := 1;
    while m < |tokens|
      invariant 1 <= m <= |tokens| && desc != ""
      invariant PutAll(Wrapped([], Escape(tokens[0])), TokenWords(tokens[1..]))
             == PutAll(Wrapped(out, desc), TokenWords(tokens[m..]))
    {
      var tmp := Escape(tokens[m]);
      assert tokens[m..][1..] == tokens[m + 1..];
      if |tmp| + |desc| + 1 > LINESIZE {
        out := out + [desc];
        desc := tmp;
      } else {
        desc := desc + " " + tmp;
      }
      m := m + 1;
    }
    w := Wrapped(out, desc);
  }

  // The inner loop, up to the end of a word of which the first characters are in tmp.
  method RestOfWord(line: string, ghost start: nat, k0: nat, tmp0: string) returns (k: nat, tmp: string)
    requires start <= |line| && start <= k0 <= WordEnd(line, start) && tmp0 == Escaped(line, start, k0)
    ensures k == WordEnd(line, start) && tmp == Escaped(line, start, k)
  {
    k, tmp := k0, tmp0;
    while k < |line| && line[k] != ' '
      invariant start <= k <= WordEnd(line, start) && tmp == Escaped(line, start, k)
      decreases |line| - k
    {
      if line[k] == '"' {
        tmp := tmp + "\\\"";
      } else {
        tmp := tmp + [line[k]];
      }
      k := k + 1;
    }
  }

  method AddText(before: seq<string>, text: string, tmp: string) returns (out: seq<string>, desc: string)
    ensures Wrapped(out, desc) == Put(Wrapped(before, text), tmp)
  {
    out, desc := before, text;
    if |tmp| + |desc| + 1 > LINESIZE {
      out := out + [desc];
      desc := tmp;
    } else if |desc| > 0 {
      desc := desc + " " + tmp;
    } else {
      desc := tmp;
    }
  }

  // Where the loop over a text is: in a word of which the first characters are in tmp, or at its end.
  predicate Reading(line: string, start: nat, k: nat, tmp: string, w: Wrapped, target: Wrapped) {
    if k < |line| then
      && start <= k <= WordEnd(line, start) && tmp == Escaped(line, start, k)
      && target == PutAll(w, Words(line, start))
    else target == w
  }

  lemma StartReading(line: string, before: Wrapped)
    requires CommentLine(line)
    ensures var m := Margin(line, 1);
            Reading(line, m, m + 1, EscapeChar(line[m]), before, PutAll(before, LineWords(line)))
  {
    var m := Margin(line, 1);
    assert Escaped(line, m, m + 1) == Escaped(line, m, m) + EscapeChar(line[m]);
  }

  lemma NextWord(line: string, start: nat, k: nat, tmp: string, w: Wrapped, target: Wrapped)
    requires CommentLine(line) && k < |line| && Reading(line, start, k, tmp, w, target)
    ensures var e := WordEnd(line, start);
            Reading(line, e + 1, e + 1, "", Put(w, Escaped(line, start, e)), target)
  {
    var e := WordEnd(line, start);
    var word := Escaped(line, start, e);
    assert Words(line, start) == [word] + Words(line, e + 1);
    assert Words(line, start)[1..] == Words(line, e + 1);
    assert target == PutAll(Put(w, word), Words(line, e + 1));
  }

  // One turn of the loop over a text: the rest of a word, putting it, and stepping over the space.
  method ReadWord(line: string, ghost start: nat, k0: nat, tmp0: string, before: seq<string>, text: string,
                  ghost target: Wrapped) returns (k: nat, out: seq<string>, desc: string)
    requires CommentLine(line) && k0 < |line| && Reading(line, start, k0, tmp0, Wrapped(before, text), target)
    ensures k0 < k && Reading(line, k, k, "", Wrapped(out, desc), target)
  {
    NextWord(line, start, k0, tmp0, Wrapped(before, text), target);
    var tmp;
    k, tmp := RestOfWord(line, start, k0, tmp0);
    out, desc := AddText(before, text, tmp);
    k := k + 1;
  }

  // The loop over the slashes and spaces that come first.
  method TextStart(line: string) returns (m: nat)
    requires CommentLine(line)
    ensures m == Margin(line, 1)
  {
    m := 1;
    while line[m] == '/' || line[m] == ' '
      invariant 1 <= m <= Margin(line, 1)
      decreases |line| - m
    {
      m := m + 1;
    }
  }

  // The loop over the text of one comment line, which starts at m.
  method WrapText(line: string, m: nat, before: Wrapped, ghost target: Wrapped) returns (w: Wrapped)
    requires CommentLine(line) && m < |line|
    requires Reading(line, m, m + 1, EscapeChar(line[m]), before, target)
    ensures w == target
  {
    var out, desc := before.out, before.desc;
    var k, tmp := m + 1, EscapeChar(line[m]);
    ghost var start := m;
    while k < |line|
      invariant 0 <= start <= k && Reading(line, start, k, tmp, Wrapped(out, desc), target)
      decreases |line| - k
    {
      k, out, desc := ReadWord(line, start, k, tmp, out, desc, target);
      tmp := "";
      start := k;
    }
    w := Wrapped(out, desc);
  }

  // One comment line.
  method WrapLine(line: string, before: Wrapped) returns (w: Wrapped)
    requires CommentLine(line)
    ensures w == PutAll(before, LineWords(line))
  {
    var m := TextStart(line);
    StartReading(line, before);
    w := WrapText(line, m, before, PutAll(before, LineWords(line)));
  }

  // ---- the best wrapping -----------------------------------------------------------------------

  function Join(words: seq<string>): string {
    if words == [] then ""
    else if |words| == 1 then words[0]
    else Join(words[..|words| - 1]) + " " + words[|words| - 1]
  }

  // Words in chunks, the last chunk first.
  datatype Chunks = One(last: seq<string>) | More(front: Chunks, last: seq<string>)

  function Count(c: Chunks): nat {
    if c.One? then 1 else Count(c.front) + 1
  }

  function Concat(c: Chunks): seq<string> {
    if c.One? then c.last else Concat(c.front) + c.last
  }

  predicate Fits(chunk: seq<string>) {
    |chunk| == 1 || (chunk != [] && |Join(chunk)| <= 53)
  }

  predicate AllFit(c: Chunks) {
    Fits(c.last) && (c.More? ==> AllFit(c.front))
  }

  // The chunks hold the words in their order, and each fits on a line or is a single word.
  predicate Wraps(c: Chunks, words: seq<string>) {
    Concat(c) == words && AllFit(c)
  }

  // The texts of all chunks but the last, and of all chunks.
  function Written(c: Chunks): seq<string> {
    if c.One? then [] else Written(c.front) + [Join(c.front.last)]
  }

  function Texts(c: Chunks): (r: seq<string>)
    ensures |r| == Count(c)
  {
    if c.One? then [Join(c.last)] else Texts(c.front) + [Join(c.last)]
  }

  // Each word goes into the last chunk if it fits there.
  function AddWord(c: Chunks, word: string): Chunks {
    if |word| + |Join(c.last)| + 1 > LINESIZE then More(c, [word]) else c.(last := c.last + [word])
  }

  function Greedy(words: seq<string>): Chunks
    requires words != []
  {
    if |words| == 1 then One(words) else AddWord(Greedy(words[..|words| - 1]), words[|words| - 1])
  }

  predicate NoneEmpty(words: seq<string>) {
    forall i :: 0 <= i < |words| ==> words[i] != ""
  }

  lemma JoinAppend(words: seq<string>, word: string)
    requires words != []
    ensures Join(words + [word]) == Join(words) + " " + word
  {
    assert (words + [word])[..|words|] == words;
  }

  lemma AddWordWraps(c: Chunks, words: seq<string>, word: string)
    requires Wraps(c, words)
    ensures Wraps(AddWord(c, word), words + [word])
  {
    if |word| + |Join(c.last)| + 1 <= LINESIZE {
      JoinAppend(c.last, word);
      if c.More? {
        assert Concat(c.front) + c.last + [word] == Concat(c.front) + (c.last + [word]);
      }
    }
  }

  lemma {:induction false} GreedyWraps(words: seq<string>)
    requires words != []
    ensures Wraps(Greedy(words), words)
  {
    if |words| > 1 {
      var before, word := words[..|words| - 1], words[|words| - 1];
      GreedyWraps(before);
      AddWordWraps(Greedy(before), before, word);
      assert before + [word] == words;
    }
  }

  lemma TextsAreWritten(c: Chunks)
    ensures Texts(c) == Written(c) + [Join(c.last)]
  {
  }

  lemma LastNotEmpty(c: Chunks, words: seq<string>)
    requires Wraps(c, words) && NoneEmpty(words)
    ensures c.last != [] && Join(c.last) != ""
  {
    assert c.last[0] == words[|words| - |c.last|];
  }

  lemma GreedyAppend(words: seq<string>, word: string)
    requires words != []
    ensures Greedy(words + [word]) == AddWord(Greedy(words), word)
  {
    assert (words + [word])[..|words|] == words;
  }

  // What has been written, and the text that is not, for words in chunks.
  function Pending(c: Chunks): Wrapped {
    Wrapped(Written(c), Join(c.last))
  }

  lemma PutIsAddWord(c: Chunks, words: seq<string>, word: string)
    requires Wraps(c, words) && NoneEmpty(words)
    ensures Put(Pending(c), word) == Pending(AddWord(c, word))
  {
    LastNotEmpty(c, words);
    JoinAppend(c.last, word);
  }

  lemma PutAllAppend(w: Wrapped, words: seq<string>, word: string)
    ensures PutAll(w, words + [word]) == Put(PutAll(w, words), word)
  {
    PutAllConcat(w, words, [word]);
    assert PutAll(PutAll(w, words), [word]) == Put(PutAll(w, words), word);
  }

  // The text that is not written yet is the last greedy chunk.
  lemma {:induction false} PutIsGreedy(first: string, rest: seq<string>)
    requires NoneEmpty([first] + rest)
    ensures PutAll(Wrapped([], first), rest) == Pending(Greedy([first] + rest))
  {
    if rest == [] {
      assert [first] + rest == [first];
    } else {
      var before, word := rest[..|rest| - 1], rest[|rest| - 1];
      assert rest == before + [word];
      assert [first] + rest == ([first] + before) + [word];
      assert forall i :: 0 <= i < |[first] + before| ==> ([first] + before)[i] == ([first] + rest)[i];
      PutIsGreedy(first, before);
      GreedyWraps([first] + before);
      PutAllAppend(Wrapped([], first), before, word);
      PutIsAddWord(Greedy([first] + before), [first] + before, word);
      GreedyAppend([first] + before, word);
    }
  }

  // Of two ends of the same words, the shorter one has the shorter text.
  lemma {:induction false} ShorterEnd(words: seq<string>, s: seq<string>, p: seq<string>,
                                      t: seq<string>, q: seq<string>)
    requires words == p + s && words == q + t && 0 < |s| <= |t|
    ensures |Join(s)| <= |Join(t)|
    decreases |s|
  {
    var word := words[|words| - 1];
    var s', t' := s[..|s| - 1], t[..|t| - 1];
    assert s == s' + [word] && t == t' + [word];
    if s' == [] {
      if t' != [] {
        JoinAppend(t', word);
      }
    } else {
      JoinAppend(s', word);
      JoinAppend(t', word);
      assert words[..|words| - 1] == p + s' && words[..|words| - 1] == q + t';
      ShorterEnd(words[..|words| - 1], s', p, t', q);
    }
  }

  // Fewer chunks, or as many and a last one of no more words.
  predicate NotWorse(c: Chunks, d: Chunks) {
    Count(c) < Count(d) || (Count(c) == Count(d) && |c.last| <= |d.last|)
  }

  function Before(c: Chunks): seq<string> {
    if c.One? then [] else Concat(c.front)
  }

  lemma StaysAhead(c: Chunks, d: Chunks, words: seq<string>, word: string)
    requires Wraps(c, words) && Concat(d) == words && d.last != [] && NotWorse(c, d)
    requires Fits(d.last + [word])
    ensures NotWorse(AddWord(c, word), d.(last := d.last + [word]))
  {
    AddWordCounts(c, word);
    if Count(c) == Count(d) {
      ShorterEnd(words, c.last, Before(c), d.last, Before(d));
      FitsIfShorter(c, d, word);
    }
  }

  lemma AddWordCounts(c: Chunks, word: string)
    ensures var a := AddWord(c, word);
            || (Count(a) == Count(c) && |a.last| == |c.last| + 1)
            || (Count(a) == Count(c) + 1 && |a.last| == 1)
  {
  }

  // What fits after the longer text fits after the shorter one.
  lemma FitsIfShorter(c: Chunks, d: Chunks, word: string)
    requires d.last != [] && Fits(d.last + [word]) && |Join(c.last)| <= |Join(d.last)|
    ensures AddWord(c, word) == c.(last := c.last + [word])
  {
    JoinAppend(d.last, word);
  }

  lemma StartsChunk(c: Chunks, d: Chunks, word: string)
    requires d.More? && d.last == [word] && NotWorse(c, d.front)
    ensures NotWorse(AddWord(c, word), d)
  {
  }

  // No wrapping of the same words has fewer chunks, or as many and a last chunk of fewer words.
  lemma {:induction false} GreedyIsBest(words: seq<string>, d: Chunks)
    requires words != [] && Wraps(d, words)
    ensures NotWorse(Greedy(words), d)
    decreases |words|
  {
    if |words| == 1 {
      CountOfOne(d);
    } else {
      var before, word := words[..|words| - 1], words[|words| - 1];
      assert before + [word] == words;
      if |d.last| == 1 {
        WithoutLastChunk(d, before, word);
        GreedyIsBest(before, d.front);
        StartsChunk(Greedy(before), d, word);
      } else {
        var shorter := WithoutLastWord(d, before, word);
        GreedyIsBest(before, shorter);
        GreedyWraps(before);
        StaysAhead(Greedy(before), shorter, before, word);
      }
      GreedyAppend(before, word);
    }
  }

  lemma WithoutLastChunk(d: Chunks, before: seq<string>, word: string)
    requires before != [] && Wraps(d, before + [word]) && |d.last| == 1
    ensures d.More? && d.last == [word] && Wraps(d.front, before)
  {
    assert d.last[0] == (before + [word])[|before|];
    assert (before + [word])[..|before|] == before;
  }

  lemma WithoutLastWord(d: Chunks, before: seq<string>, word: string) returns (shorter: Chunks)
    requires Wraps(d, before + [word]) && |d.last| > 1
    ensures shorter.last != [] && d == shorter.(last := shorter.last + [word]) && Wraps(shorter, before)
  {
    var last := d.last[..|d.last| - 1];
    shorter := d.(last := last);
    assert d.last[|d.last| - 1] == (before + [word])[|before|];
    assert d.last == last + [word];
    assert Concat(d) == Concat(shorter) + [word];
    assert (before + [word])[..|before|] == before;
    ShorterFits(last, word);
  }

  lemma CountOfOne(d: Chunks)
    requires |Concat(d)| == 1 && AllFit(d)
    ensures Count(d) == 1 && |d.last| == 1
  {
  }

  lemma ShorterFits(chunk: seq<string>, word: string)
    requires chunk != [] && Fits(chunk + [word])
    ensures Fits(chunk)
  {
    JoinAppend(chunk, word);
  }

  // ---- what the words are ----------------------------------------------------------------------

  lemma {:induction false} EscapedConcat(text: string, a: nat, b: nat, c: nat)
    requires a <= b <= c <= |text|
    ensures Escaped(text, a, c) == Escaped(text, a, b) + Escaped(text, b, c)
  {
    if b < c {
      EscapedConcat(text, a, b, c - 1);
    }
  }

  lemma {:induction false} EscapedPart(text: string, a: nat, b: nat, part: string)
    requires a <= b <= |text| && part == text[a..b]
    ensures Escaped(text, a, b) == Escape(part)
  {
    EscapedShift(text, a, part, |part|);
  }

  lemma {:induction false} EscapedShift(text: string, a: nat, part: string, n: nat)
    requires n <= |part| && a + |part| <= |text| && part == text[a..a + |part|]
    ensures Escaped(text, a, a + n) == Escaped(part, 0, n)
  {
    if n > 0 {
      EscapedShift(text, a, part, n - 1);
    }
  }

  // Escaping puts a backslash before every quote and leaves all else alone.
  lemma EscapeIsFaithful(a: string, b: string)
    ensures Escape(a + "\"" + b) == Escape(a) + "\\\"" + Escape(b)
    ensures '"' !in a ==> Escape(a) == a
  {
    var text, k := a + "\"" + b, |a|;
    EscapedConcat(text, 0, k, |text|);
    EscapedConcat(text, k, k + 1, |text|);
    EscapedPart(text, 0, k, a);
    EscapedPart(text, k + 1, |text|, b);
    assert Escaped(text, k, k + 1) == Escaped(text, k, k) + EscapeChar('"');
    if '"' !in a {
      EscapedPlain(a, |a|);
    }
  }

  lemma {:induction false} EscapedPlain(a: string, n: nat)
    requires n <= |a| && '"' !in a
    ensures Escaped(a, 0, n) == a[..n]
  {
    if n > 0 {
      EscapedPlain(a, n - 1);
    }
  }

  lemma {:induction false} NoSpaceInside(line: string, a: nat, b: nat)
    requires a <= b <= |line| && ' ' !in line[a..b]
    ensures ' ' !in Escaped(line, a, b)
  {
    if a < b {
      assert line[b - 1] == line[a..b][b - 1 - a] && line[a..b - 1] == line[a..b][..b - 1 - a];
      NoSpaceInside(line, a, b - 1);
    }
  }

  lemma {:induction false} JoinPrepend(word: string, words: seq<string>)
    requires words != []
    ensures Join([word] + words) == word + " " + Join(words)
  {
    var n := |words| - 1;
    assert ([word] + words)[..n + 1] == [word] + words[..n];
    if n > 0 {
      JoinPrepend(word, words[..n]);
    } else {
      assert [word] + words[..n] == [word];
    }
  }

  lemma EscapedAtSpace(line: string, k: nat, e: nat)
    requires k <= e < |line| && line[e] == ' '
    ensures Escaped(line, k, |line|) == Escaped(line, k, e) + " " + Escaped(line, e + 1, |line|)
  {
    EscapedConcat(line, k, e, |line|);
    EscapedConcat(line, e, e + 1, |line|);
    assert Escaped(line, e, e + 1) == Escaped(line, e, e) + EscapeChar(' ');
  }

  lemma WordsFrom(line: string, k: nat)
    requires k < |line| && line[|line| - 1] != ' '
    ensures var e := WordEnd(line, k);
            && Words(line, k) == [Escaped(line, k, e)] + Words(line, e + 1)
            && (e < |line| ==> e + 1 < |line| && Words(line, e + 1) != [])
            && (e == |line| ==> Words(line, k) == [Escaped(line, k, |line|)])
  {
  }

  lemma JoinOne(word: string)
    ensures Join([word]) == word
  {
  }

  lemma JoinAtSpace(line: string, k: nat, e: nat, rest: seq<string>, words: seq<string>)
    requires k <= e < |line| && line[e] == ' ' && rest != [] && Join(rest) == Escaped(line, e + 1, |line|)
    requires words == [Escaped(line, k, e)] + rest
    ensures Join(words) == Escaped(line, k, |line|)
  {
    JoinPrepend(Escaped(line, k, e), rest);
    EscapedAtSpace(line, k, e);
  }

  // With a space between any two words they are the escaped text.
  lemma {:induction false} WordsJoin(line: string, k: nat, e: nat, words: seq<string>)
    requires k < |line| && line[|line| - 1] != ' ' && e == WordEnd(line, k) && words == Words(line, k)
    ensures Join(words) == Escaped(line, k, |line|)
    decreases |line| - k
  {
    WordsFrom(line, k);
    if e == |line| {
      JoinOne(Escaped(line, k, |line|));
    } else {
      var rest := Words(line, e + 1);
      WordsJoin(line, e + 1, WordEnd(line, e + 1), rest);
      JoinAtSpace(line, k, e, rest, words);
    }
  }

  // And they have no spaces themselves.
  lemma {:induction false} WordsHaveNoSpace(line: string, k: nat)
    ensures forall w :: w in Words(line, k) ==> ' ' !in w
    decreases |line| - k
  {
    if k < |line| {
      var e := WordEnd(line, k);
      NoSpaceInside(line, k, e);
      WordsHaveNoSpace(line, e + 1);
    }
  }

  // So the words of a comment line are what a split of its text at spaces gives, with quotes escaped.
  lemma TextWordsAreTheText(line: string)
    requires CommentLine(line)
    ensures Join(TextWords(line)) == Escape(line[Margin(line, 1)..])
    ensures forall w :: w in TextWords(line) ==> ' ' !in w
  {
    var m := Margin(line, 1);
    WordsJoin(line, m, WordEnd(line, m), TextWords(line));
    WordsHaveNoSpace(line, m);
    EscapedPart(line, m, |line|, line[m..]);
  }

  // The words of several comment lines follow each other.
  lemma {:induction false} LinesInOrder(s: seq<string>, t: seq<string>)
    requires CommentLines(s) && CommentLines(t)
    ensures CommentLines(s + t) && AllLineWords(s + t) == AllLineWords(s) + AllLineWords(t)
  {
    if s == [] {
      assert s + t == t;
    } else {
      assert (s + t)[1..] == s[1..] + t;
      assert (s + t)[0] == s[0];
      LinesInOrder(s[1..], t);
    }
  }

  lemma OneLine(line: string)
    requires CommentLine(line)
    ensures AllLineWords([line]) == if SingleCharacter(line) then [] else TextWords(line)
  {
    assert [line][1..] == [];
  }

  // ---- a description ---------------------------------------------------------------------------

  predicate Contains(text: string, part: string) {
    exists i :: 0 <= i <= |text| && part <= text[i..]
  }

  // The strings written for a definition and the comment lines after it.
  method Describe(tokens: seq<string>, lines: seq<string>) returns (written: seq<string>)
    requires tokens != [] && forall i :: 0 <= i < |tokens| ==> tokens[i] != ""
    requires CommentLines(lines)
    ensures Contains(Escape(tokens[0]), "DEPRECATED") ==> written == [Escape(tokens[0])]
    ensures !Contains(Escape(tokens[0]), "DEPRECATED") ==>
      written == Flush(PutAll(Wrapped([], Escape(tokens[0])), TokenWords(tokens[1..]) + AllLineWords(lines)))
    ensures var words := TokenWords(tokens) + AllLineWords(lines);
            !Contains(Escape(tokens[0]), "DEPRECATED") && NoneEmpty(words) ==> written == Texts(Greedy(words))
  {
    var first := Escape(tokens[0]);
    if Contains(first, "DEPRECATED") {
      return [first];
    }
    var w := WrapTokens(tokens);
    ghost var start := w;
    var n := 0;
    while n < |lines|
      invariant 0 <= n <= |lines|
      invariant PutAll(start, AllLineWords(lines)) == PutAll(w, AllLineWords(lines[n..]))
    {
      PutAllConcat(w, LineWords(lines[n]), AllLineWords(lines[n + 1..]));
      assert lines[n..][1..] == lines[n + 1..];
      w := WrapLine(lines[n], w);
      n := n + 1;
    }
    written := if w.desc != "" then w.out + [w.desc] else w.out;
    PutAllConcat(Wrapped([], first), TokenWords(tokens[1..]), AllLineWords(lines));
    WrittenIsGreedy(Escape(tokens[0]), TokenWords(tokens[1..]), AllLineWords(lines), w);
    assert [Escape(tokens[0])] + TokenWords(tokens[1..]) + AllLineWords(lines)
        == TokenWords(tokens) + AllLineWords(lines);
  }

  lemma WrittenIsGreedy(first: string, rest: seq<string>, more: seq<string>, w: Wrapped)
    requires w == PutAll(PutAll(Wrapped([], first), rest), more)
    ensures var words := [first] + rest + more;
            NoneEmpty(words) ==> Flush(w) == Texts(Greedy(words))
  {
    var words := [first] + rest + more;
    if NoneEmpty(words) {
      PutAllConcat(Wrapped([], first), rest, more);
      assert words == [first] + (rest + more);
      PutIsGreedy(first, rest + more);
      GreedyWraps(words);
      LastNotEmpty(Greedy(words), words);
      TextsAreWritten(Greedy(words));
    }
  }
}
