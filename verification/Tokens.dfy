/** The tokens of a text: as the file reader finds them, line by line, and as the text split
    at its delimiters. */
module Tokens {
  import opened Lines
  import opened CStrings

  /** VM_MAX_TEMP_LINE */
  const MAX_LINE: nat := 8192

  predicate IsBlank(c: char) {
    c == ' ' || c == '\t'
  }

  /** What ends a token. */
  predicate IsDelimiter(c: char) {
    c == ' ' || c == ',' || c == '\n' || c == '\r'
  }

  /** What is passed over in front of a token. */
  predicate IsSeparator(c: char) {
    IsDelimiter(c) || IsBlank(c)
  }

  /** Where a token that goes on at i ends: at the next delimiter or the end. */
  function TokenEnd(s: seq<char>, i: nat): (e: nat)
    requires i <= |s|
    ensures i <= e <= |s| && (e < |s| ==> IsDelimiter(s[e])) && forall j :: i <= j < e ==> !IsDelimiter(s[j])
    decreases |s| - i
  {
    if i == |s| || IsDelimiter(s[i]) then i else TokenEnd(s, i + 1)
  }

  function TokenLen(s: seq<char>): (t: nat)
    ensures t <= |s| && (t < |s| ==> IsDelimiter(s[t])) && forall j :: 0 <= j < t ==> !IsDelimiter(s[j])
  {
    TokenEnd(s, 0)
  }

  /** Where the blanks from i on end. */
  function BlanksEnd(s: seq<char>, i: nat): (b: nat)
    requires i <= |s|
    ensures i <= b <= |s| && (b < |s| ==> !IsBlank(s[b])) && forall j :: i <= j < b ==> IsBlank(s[j])
    decreases |s| - i
  {
    if i == |s| || !IsBlank(s[i]) then i else BlanksEnd(s, i + 1)
  }

  datatype Token = NoToken | Token(text: seq<char>)

  function Further(next: (Token, nat), d: nat): (Token, nat) {
    (next.0, d + next.1)
  }

  /** The token in front of a line, behind blanks, and where it ends. */
  function Look(line: seq<char>): (r: (Token, nat))
    ensures r.1 <= |line| && (r.0.Token? ==> r.1 > 0)
  {
    var b := BlanksEnd(line, 0);
    var e := TokenEnd(line, b);
    if b < e then (Token(line[b..e]), e) else (NoToken, 0)
  }

  predicate HasToken(line: seq<char>) {
    Look(line).0.Token?
  }

  /** It is found by passing the blanks and then everything up to a delimiter. */
  lemma {:induction false} LookIs(line: seq<char>, b: nat, e: nat)
    requires b <= e <= |line|
    requires (forall i :: 0 <= i < b ==> IsBlank(line[i])) && (b < |line| ==> !IsBlank(line[b]))
    requires (forall i :: b <= i < e ==> !IsDelimiter(line[i])) && (e < |line| ==> IsDelimiter(line[e]))
    ensures HasToken(line) <==> b < e
    ensures b < e ==> Look(line) == (Token(line[b..e]), e)
  {
    assert BlanksEnd(line, 0) == b;
    assert TokenEnd(line, b) == e;
  }

  /** Where there is no token, the line is empty or what follows the blanks is a delimiter. */
  lemma {:induction false} LookFinds(line: seq<char>) returns (b: nat, e: nat)
    ensures b <= e <= |line|
    ensures (forall i :: 0 <= i < b ==> IsBlank(line[i])) && (b < |line| ==> !IsBlank(line[b]))
    ensures (forall i :: b <= i < e ==> !IsDelimiter(line[i])) && (e < |line| ==> IsDelimiter(line[e]))
    ensures HasToken(line) <==> b < e
    ensures b < e ==> Look(line) == (Token(line[b..e]), e)
  {
    b := BlanksEnd(line, 0);
    e := TokenEnd(line, b);
  }

  /** A blank in front moves the token and nothing else. */
  lemma {:induction false} LookAfterBlank(line: seq<char>)
    requires line != [] && IsBlank(line[0])
    ensures HasToken(line) <==> HasToken(line[1..])
    ensures HasToken(line) ==> Look(line) == Further(Look(line[1..]), 1)
  {
    var b, e := LookFinds(line[1..]);
    assert forall i :: 0 < i < |line| ==> line[i] == line[1..][i - 1];
    LookIs(line, b + 1, e + 1);
    assert line[1..][b..e] == line[b + 1..e + 1];
  }

  function NextLine(text: seq<char>): seq<char> {
    text[..Taken(text, MAX_LINE)]
  }

  /** What gettoken sees of a line: a null character ends it, and so does the one that the last
      slot of a full buffer is given. */
  function Shown(line: seq<char>): seq<char> {
    if '\0' in line || |line| >= MAX_LINE then line[..|line| - 1] else line
  }

  /** The token that is found in a line, and where the position is left: what is behind the
      token in the line shown is given back. */
  function LookIn(line: seq<char>): (r: (Token, nat))
    ensures r.1 <= |line| && (r.0.Token? ==> r.1 > 0)
  {
    Further(Look(Shown(line)), |line| - |Shown(line)|)
  }

  /** How long the next line of a text is, and what is found in a line. */
  datatype Search = Search(cut: seq<char> -> nat, look: seq<char> -> (Token, nat))

  /** A line with nothing special in it. */
  predicate IsPlain(line: seq<char>) {
    0 < |line| < MAX_LINE && line[|line| - 1] == '\n' && '\0' !in line
  }

  ghost predicate CutsAt(how: Search, text: seq<char>) {
    && how.cut(text) <= |text| && (text != [] ==> how.cut(text) > 0)
    && (ShortLines(text) && text != [] ==> how.cut(text) == LineEnd(text))
  }

  ghost predicate LooksAt(how: Search, line: seq<char>) {
    && how.look(line).1 <= |line| && (how.look(line).0.Token? ==> how.look(line).1 > 0)
    && (IsPlain(line) ==> how.look(line) == Look(line))
  }

  /** Lines are not empty, and short ones end at their newline and are looked at as they are. */
  ghost predicate Sound(how: Search) {
    (forall text :: CutsAt(how, text)) && (forall line :: LooksAt(how, line))
  }

  /** The next token and how far the position moves: lines are read until one has a token, or
      one without ends at `left` or further. `left` is how far it is to the length recorded
      when the file was opened. */
  function NextBy(how: Search, rest: seq<char>, left: int): (Token, nat)
    decreases |rest|
  {
    var k := how.cut(rest);
    if k == 0 || k > |rest| then (NoToken, 0)
    else if how.look(rest[..k]).0.Token? then how.look(rest[..k])
    else if k >= left then (NoToken, k)
    else Further(NextBy(how, rest[k..], left - k), k)
  }

  lemma {:induction false} NextByWithin(how: Search, rest: seq<char>, left: int)
    requires Sound(how)
    ensures NextBy(how, rest, left).1 <= |rest|
    ensures NextBy(how, rest, left).0.Token? ==> NextBy(how, rest, left).1 > 0
    decreases |rest|
  {
    var k := how.cut(rest);
    assert CutsAt(how, rest);
    if k > 0 {
      assert LooksAt(how, rest[..k]);
      NextByWithin(how, rest[k..], left - k);
    }
  }

  function LineLength(text: seq<char>): nat {
    Taken(text, MAX_LINE)
  }

  /** vm_file_fgets and gettoken. */
  function ByLine(): Search {
    Search(LineLength, LookIn)
  }

  ghost predicate CutsByLine(how: Search, text: seq<char>) {
    how.cut(text) == Taken(text, MAX_LINE)
  }

  ghost predicate LooksByLine(how: Search, line: seq<char>) {
    how.look(line) == LookIn(line)
  }

  /** A search that does on every text and line what ByLine does. */
  ghost predicate IsByLine(how: Search) {
    (forall text :: CutsByLine(how, text)) && (forall line :: LooksByLine(how, line))
  }

  lemma {:induction false} ByLineIs()
    ensures IsByLine(ByLine())
  {
    forall text ensures CutsByLine(ByLine(), text) {
    }
    forall line ensures LooksByLine(ByLine(), line) {
    }
  }

  lemma {:induction false} ByLineIsSound(how: Search)
    requires IsByLine(how)
    ensures Sound(how)
  {
    forall text ensures CutsAt(how, text) {
      assert CutsByLine(how, text);
      if ShortLines(text) && text != [] {
        ShortLine(text);
      }
    }
    forall line ensures LooksAt(how, line) {
      assert LooksByLine(how, line);
    }
  }

  function NextToken(rest: seq<char>, left: int): (Token, nat) {
    NextBy(ByLine(), rest, left)
  }

  lemma {:induction false} DropDrop(s: seq<char>, a: nat, b: nat)
    requires a + b <= |s|
    ensures s[a..][b..] == s[a + b..]
  {
  }

  lemma {:induction false} TakeDrop(s: seq<char>, a: nat, m: nat)
    requires a <= m <= |s|
    ensures s[..m][a..] == s[a..][..m - a]
  {
  }

  lemma {:induction false} TakeTake(s: seq<char>, a: nat, m: nat)
    requires a <= m <= |s|
    ensures s[..m][..a] == s[..a]
  {
  }

  /** The tokens that successive searches return until one finds none. */
  function TokensBy(how: Search, rest: seq<char>, left: int): seq<seq<char>>
    decreases |rest|
  {
    var next := NextBy(how, rest, left);
    if next.0.NoToken? || next.1 == 0 || next.1 > |rest| then []
    else [next.0.text] + TokensBy(how, rest[next.1..], left - next.1)
  }

  function TokensUpTo(rest: seq<char>, left: int): seq<seq<char>> {
    TokensBy(ByLine(), rest, left)
  }

  /** All the tokens of a text: what is found when the recorded length is the length. */
  function AllTokens(rest: seq<char>): seq<seq<char>> {
    TokensUpTo(rest, |rest|)
  }

  /** A recorded length beyond the end is as good as the right one, where the reader ends. */
  lemma {:induction false} NextBeyond(how: Search, rest: seq<char>, left: int)
    requires Sound(how) && left >= |rest|
    ensures NextBy(how, rest, left) == NextBy(how, rest, |rest|)
    decreases |rest|
  {
    var k := how.cut(rest);
    assert CutsAt(how, rest);
    if 0 < k < |rest| {
      NextBeyond(how, rest[k..], left - k);
    } else if k > 0 {
      assert rest[k..] == [];
    }
  }

  /** The text split at its delimiters, without the tabs in front of a word. A tab inside a
      word is part of it. */
  function Words(text: seq<char>): seq<seq<char>>
    decreases |text|
  {
    if text == [] then []
    else if IsSeparator(text[0]) then Words(text[1..])
    else [text[..TokenLen(text)]] + Words(text[TokenLen(text)..])
  }

  function NewlineAt(text: seq<char>): (i: nat)
    ensures i <= |text| && (i < |text| ==> text[i] == '\n') && forall j :: 0 <= j < i ==> text[j] != '\n'
  {
    FirstAt(text, '\n', 0)
  }

  ghost predicate ShortAt(text: seq<char>, i: nat)
    requires i < |text|
  {
    text[i] != '\0' && FirstAt(text, '\n', i) < |text| && FirstAt(text, '\n', i) + 2 <= i + MAX_LINE
  }

  /** Text the reader can take line by line: there is no null character, and wherever one is in
      the text the line ends with a newline before the buffer is full. */
  ghost predicate ShortLines(text: seq<char>) {
    forall i :: 0 <= i < |text| ==> ShortAt(text, i)
  }

  lemma {:induction false} FirstAtIs(s: seq<char>, c: char, i: nat, k: nat)
    requires i <= k < |s| && s[k] == c && forall j :: i <= j < k ==> s[j] != c
    ensures FirstAt(s, c, i) == k
  {
  }

  lemma {:induction false} FirstAtFrom(s: seq<char>, c: char, i: nat, j: nat)
    requires i + j <= |s|
    ensures FirstAt(s[i..], c, j) == FirstAt(s, c, i + j) - i
  {
    var k := FirstAt(s, c, i + j);
    assert forall x :: 0 <= x < |s| - i ==> s[i..][x] == s[i + x];
    if k < |s| {
      FirstAtIs(s[i..], c, j, k - i);
    }
  }

  /** The rest of such a text is one, ... */
  lemma {:induction false} ShortFrom(text: seq<char>, i: nat)
    requires ShortLines(text) && i <= |text|
    ensures ShortLines(text[i..])
  {
    forall j | 0 <= j < |text| - i ensures ShortAt(text[i..], j) {
      assert ShortAt(text, i + j);
      FirstAtFrom(text, '\n', i, j);
    }
  }

  /** ... and so is what is in front of the end of a line. */
  lemma {:induction false} ShortUpTo(text: seq<char>, m: nat)
    requires ShortLines(text) && m <= |text| && (m > 0 ==> text[m - 1] == '\n')
    ensures ShortLines(text[..m])
  {
    assert forall j :: 0 <= j < m ==> text[..m][j] == text[j];
    forall i | 0 <= i < m ensures ShortAt(text[..m], i) {
      assert ShortAt(text, i) && FirstAt(text, '\n', i) <= m - 1;
      FirstAtIs(text[..m], '\n', i, FirstAt(text, '\n', i));
    }
  }

  /** Its lines are what they look like. */
  lemma {:induction false} ShortLine(text: seq<char>)
    requires ShortLines(text) && text != []
    ensures |NextLine(text)| == LineEnd(text) && text[LineEnd(text) - 1] == '\n'
    ensures Shown(NextLine(text)) == NextLine(text)
  {
    assert ShortAt(text, 0);
    var k := NewlineAt(text) + 1;
    forall j | 0 <= j < k ensures text[..k][j] != '\0' {
      assert ShortAt(text, j);
    }
    assert forall j :: 0 <= j < k - 1 ==> text[..k - 1][j] == text[..k][j] == text[j];
    LineLenIff(text, MAX_LINE, k);
  }

  /** Text whose last line is complete. */
  ghost predicate Terminated(text: seq<char>) {
    forall i :: 0 <= i < |text| && i + 1 == |text| ==> StopAt(text, i)
  }

  predicate StopAt(text: seq<char>, i: nat)
    requires i < |text|
  {
    IsStop(text[i])
  }

  /** The first d characters of the text are lines without a token, all of them in front of
      `left`. */
  ghost predicate Passed(how: Search, text: seq<char>, d: nat, left: int)
    decreases d
  {
    d == 0 ||
    var k := how.cut(text);
    && 0 < k <= d && k < left && k <= |text| && how.look(text[..k]).0.NoToken?
    && Passed(how, text[k..], d - k, left - k)
  }

  lemma {:induction false} PassLine(how: Search, text: seq<char>, d: nat, left: int, line: seq<char>)
    requires Sound(how) && Passed(how, text, d, left) && d <= |text| && d + |line| < left
    requires how.cut(text[d..]) == |line| <= |text| - d && line == text[d..][..|line|] && how.look(line).0.NoToken?
    ensures Passed(how, text, d + |line|, left)
    decreases d
  {
    if d == 0 {
      assert text[0..] == text && CutsAt(how, text);
      assert line != [] ==> Passed(how, text[|line|..], 0, left - |line|);
    } else {
      var k := how.cut(text);
      DropDrop(text, k, d - k);
      PassLine(how, text[k..], d - k, left - k, line);
    }
  }

  /** Passing such lines does not change the next token. */
  lemma {:induction false} PassedHasNoToken(how: Search, text: seq<char>, d: nat, left: int)
    requires Passed(how, text, d, left) && d <= |text|
    ensures NextBy(how, text, left) == Further(NextBy(how, text[d..], left - d), d)
    decreases d
  {
    if d == 0 {
      assert text[0..] == text;
    } else {
      var k := how.cut(text);
      DropDrop(text, k, d - k);
      PassedHasNoToken(how, text[k..], d - k, left - k);
    }
  }

  lemma {:induction false} TerminatedFrom(text: seq<char>, d: nat)
    requires Terminated(text) && d <= |text|
    ensures Terminated(text[d..])
  {
    if d < |text| {
      assert StopAt(text, |text| - 1);
    }
  }

  /** The line at d ends the search if it has a token, or if it has none and ends at `left` or
      further, or if it is empty. */
  lemma {:induction false} SearchIsOver(how: Search, text: seq<char>, d: nat, left: int, line: seq<char>)
    requires Sound(how) && Passed(how, text, d, left) && d <= |text|
    requires how.cut(text[d..]) == |line| <= |text| - d && line == text[d..][..|line|]
    requires how.look(line).0.Token? ==> line != []
    ensures how.look(line).0.Token? ==> NextBy(how, text, left) == Further(how.look(line), d)
    ensures how.look(line).0.NoToken? && (d + |line| >= left || line == []) ==>
              NextBy(how, text, left) == (NoToken, d + |line|)
  {
    assert CutsAt(how, text[d..]);
    PassedHasNoToken(how, text, d, left);
  }

  /** Otherwise the search goes on, and it gets further if it can end at all. */
  lemma {:induction false} GoesOn(how: Search, text: seq<char>, d: nat, left: int, line: seq<char>)
    requires IsByLine(how) && Passed(how, text, d, left) && d <= |text| && line == NextLine(text[d..])
    requires how.look(line).0.NoToken? && d + |line| < left
    requires left <= |text| || NextBy(how, text, |text|).0.Token?
    ensures line != [] && Passed(how, text, d + |line|, left)
  {
    ByLineIsSound(how);
    assert CutsByLine(how, text[d..]);
    PassLine(how, text, d, left, line);
    if line == [] {
      PassedHasNoToken(how, text, d, left);
      NextBeyond(how, text, left);
    }
  }

  // ---- when the search ends ----

  /** One of the next m rounds of the loop in getfiletoken_cvt is the last one: it finds a token
      or leaves the position at the recorded length or further. A round at the end of the text
      takes the empty line, which changes nothing. */
  predicate EndsWithin(how: Search, rest: seq<char>, left: int, m: nat)
    decreases m
  {
    m > 0 &&
    var k := how.cut(rest);
    k <= |rest| &&
    ((k > 0 && how.look(rest[..k]).0.Token?) || k >= left || EndsWithin(how, rest[k..], left - k, m - 1))
  }

  lemma {:induction false} EndsInTime(how: Search, rest: seq<char>, left: int, m: nat)
    requires Sound(how) && (left <= |rest| || NextBy(how, rest, |rest|).0.Token?)
    requires m > |rest|
    ensures EndsWithin(how, rest, left, m)
    decreases |rest|
  {
    var k := how.cut(rest);
    assert CutsAt(how, rest);
    if 0 < k < left && how.look(rest[..k]).0.NoToken? {
      EndsInTime(how, rest[k..], left - k, m - 1);
    }
  }

  lemma {:induction false} NeverEnds(how: Search, rest: seq<char>, left: int, m: nat)
    requires Sound(how) && left > |rest| && NextBy(how, rest, |rest|).0.NoToken?
    ensures !EndsWithin(how, rest, left, m)
    decreases m
  {
    if m > 0 {
      var k := how.cut(rest);
      assert CutsAt(how, rest);
      if k == 0 {
        assert rest[0..] == rest;
        NeverEnds(how, rest, left, m - 1);
      } else {
        NextByRest(how, rest, k);
        NeverEnds(how, rest[k..], left - k, m - 1);
      }
    }
  }

  lemma {:induction false} NextByRest(how: Search, rest: seq<char>, k: nat)
    requires Sound(how) && NextBy(how, rest, |rest|).0.NoToken? && k == how.cut(rest) > 0 && k <= |rest|
    ensures how.look(rest[..k]).0.NoToken? && NextBy(how, rest[k..], |rest| - k).0.NoToken?
  {
    assert CutsAt(how, rest) && CutsAt(how, rest[k..]);
    assert k == |rest| ==> rest[k..] == [];
  }

  ghost predicate SearchEnds(how: Search, rest: seq<char>, left: int) {
    exists m :: EndsWithin(how, rest, left, m)
  }

  /** The search ends exactly if the recorded length is not beyond the end of the file or there
      is a token to be found. */
  lemma {:induction false} SearchEndsIff(how: Search, rest: seq<char>, left: int)
    requires Sound(how)
    ensures SearchEnds(how, rest, left) <==> left <= |rest| || NextBy(how, rest, |rest|).0.Token?
  {
    if left <= |rest| || NextBy(how, rest, |rest|).0.Token? {
      EndsInTime(how, rest, left, |rest| + 1);
      assert EndsWithin(how, rest, left, |rest| + 1);
    } else {
      forall m: nat ensures !EndsWithin(how, rest, left, m) {
        NeverEnds(how, rest, left, m);
      }
    }
  }

  /** Every search ends when all tokens are read one after the other. */
  ghost predicate ReadingEnds(how: Search, rest: seq<char>, left: int)
    decreases |rest|
  {
    && SearchEnds(how, rest, left)
    && var next := NextBy(how, rest, left);
       next.0.Token? && 0 < next.1 <= |rest| ==> ReadingEnds(how, rest[next.1..], left - next.1)
  }

  /** Reading all tokens ends exactly if the recorded length is not beyond the end. */
  lemma {:induction false} ReadingEndsIff(how: Search, rest: seq<char>, left: int)
    requires Sound(how)
    ensures ReadingEnds(how, rest, left) <==> left <= |rest|
    decreases |rest|
  {
    SearchEndsIff(how, rest, left);
    NextByWithin(how, rest, left);
    var next := NextBy(how, rest, left);
    if left > |rest| {
      NextBeyond(how, rest, left);
    }
    if next.0.Token? {
      ReadingEndsIff(how, rest[next.1..], left - next.1);
    }
  }

  // ---- a token and its delimiter ----

  lemma {:induction false} TokenEndsInLine(line: seq<char>)
    requires HasToken(line) && line[|line| - 1] == '\n'
    ensures Look(line).1 < |line| && IsDelimiter(line[Look(line).1])
  {
    var _, _ := LookFinds(line);
  }

  /** Where the next token of a text ends, or what comes behind the text, can be read on from,
      and a token ends in front of a delimiter. */
  ghost predicate EndsWell(text: seq<char>, next: (Token, nat)) {
    && next.1 <= |text| && ShortLines(text[next.1..])
    && (next.0.Token? ==> next.1 < |text| && IsDelimiter(text[next.1]))
  }

  lemma {:induction false} LineEndsWell(text: seq<char>)
    requires ShortLines(text) && text != [] && HasToken(NextLine(text))
    ensures EndsWell(text, Look(NextLine(text)))
  {
    var line := NextLine(text);
    var e := Look(line).1;
    ShortLine(text);
    TokenEndsInLine(line);
    ShortFrom(text, e);
    assert text[e] == line[e];
  }

  lemma {:induction false} EndsWellFurther(text: seq<char>, k: nat, next: (Token, nat))
    requires k <= |text| && EndsWell(text[k..], next)
    ensures EndsWell(text, Further(next, k))
  {
    assert text[k..][next.1..] == text[k + next.1..];
  }

  /** Where lines are short, reading a token leaves the position in front of a delimiter, and
      the text can be read on from there. */
  lemma {:induction false} TokenEndsAtDelimiter(how: Search, text: seq<char>, left: int)
    requires Sound(how) && ShortLines(text)
    ensures EndsWell(text, NextBy(how, text, left))
    decreases |text|
  {
    if text == [] {
      assert CutsAt(how, text);
    } else {
      var k := LineEnd(text);
      ShortLine(text);
      LineFound(how, text, left);
      ShortFrom(text, k);
      if HasToken(text[..k]) {
        LineEndsWell(text);
      } else if k < left {
        TokenEndsAtDelimiter(how, text[k..], left - k);
        EndsWellFurther(text, k, NextBy(how, text[k..], left - k));
      }
    }
  }

  /** A token is found whole and the position left right behind it exactly if its line is
      shorter than the buffer and holds no null character. */
  lemma {:induction false} TokenIsKeptIff(line: seq<char>)
    requires HasToken(line) || HasToken(Shown(line))
    ensures LookIn(line) == Look(line) <==> |line| < MAX_LINE && '\0' !in line
  {
    if |line| >= MAX_LINE || '\0' in line {
      var n := |line| - 1;
      var b, e := LookFinds(line);
      var b1, e1 := if b < n then b else n, if e < n then e else n;
      var shown := Shown(line);
      assert |shown| == n && forall i :: 0 <= i < n ==> shown[i] == line[i];
      LookIs(shown, b1, e1);
      assert |shown[b1..e1]| == e1 - b1 && |line[b..e]| == e - b;
    }
  }

  /** Where a line is not short that fails: of 8192 characters without a delimiter or null
      character the first 8191 are the token, and the position is behind the last one, which is
      in no token. */
  lemma {:induction false} LongTokenLosesCharacter(text: seq<char>, left: int)
    requires |text| >= MAX_LINE && !IsBlank(text[0])
    requires forall i :: 0 <= i < MAX_LINE ==> !IsDelimiter(text[i]) && text[i] != '\0'
    ensures NextToken(text, left) == (Token(text[..MAX_LINE - 1]), MAX_LINE)
  {
    var shown := text[..MAX_LINE - 1];
    assert NoStop(shown);
    LineLenIff(text, MAX_LINE, MAX_LINE);
    assert |NextLine(text)| == MAX_LINE && Shown(NextLine(text)) == shown;
    LookIs(shown, 0, MAX_LINE - 1);
    assert shown[0..MAX_LINE - 1] == shown;
  }

  lemma {:induction false} NewlineAtIs(text: seq<char>, i: nat)
    requires i < |text| && text[i] == '\n' && forall j :: 0 <= j < i ==> text[j] != '\n'
    ensures NewlineAt(text) == i
  {
  }

  function LineEnd(text: seq<char>): nat
    requires text != []
  {
    if NewlineAt(text) < |text| then NewlineAt(text) + 1 else |text|
  }

  /** One pass over the characters: after a comma or a carriage return that no token stands
      in front of, the rest of the line is dropped. */
  function Scan(text: seq<char>): seq<seq<char>>
    decreases |text|
  {
    if text == [] then []
    else if IsBlank(text[0]) || text[0] == '\n' then Scan(text[1..])
    else if text[0] == ',' || text[0] == '\r' then Scan(text[LineEnd(text)..])
    else [text[..TokenLen(text)]] + Scan(text[TokenLen(text)..])
  }

  lemma {:induction false} TailSlices(text: seq<char>, k: nat)
    requires 0 < k <= |text|
    ensures text[1..][..k - 1] == text[..k][1..] && text[1..][k - 1..] == text[k..]
  {
  }

  lemma {:induction false} LineFound(how: Search, text: seq<char>, left: int)
    requires Sound(how) && ShortLines(text) && text != []
    ensures var k := LineEnd(text);
            && 0 < k <= |text|
            && NextBy(how, text, left) ==
               if HasToken(text[..k]) then Look(text[..k])
               else if k >= left then (NoToken, k)
               else Further(NextBy(how, text[k..], left - k), k)
  {
    ShortLine(text);
    assert CutsAt(how, text) && LooksAt(how, text[..LineEnd(text)]);
  }

  lemma {:induction false} TailLine(text: seq<char>, i: nat)
    requires ShortLines(text) && text != [] && i < LineEnd(text)
    ensures ShortLines(text[i..]) && text[i..] != [] && LineEnd(text[i..]) == LineEnd(text) - i
  {
    ShortLine(text);
    ShortFrom(text, i);
    FirstAtFrom(text, '\n', i, 0);
    FirstAtIs(text, '\n', i, NewlineAt(text));
  }

  /** A leading blank moves the position and nothing else. */
  lemma {:induction false} NextAfterBlank(how: Search, text: seq<char>, left: int)
    requires Sound(how) && ShortLines(text) && text != [] && IsBlank(text[0])
    ensures NextBy(how, text, left) == Further(NextBy(how, text[1..], left - 1), 1)
  {
    var k, tail := LineEnd(text), text[1..];
    BlankLine(text, k);
    LookAfterBlank(text[..k]);
    LineFound(how, text, left);
    LineFound(how, tail, left - 1);
  }

  lemma {:induction false} BlankLine(text: seq<char>, k: nat)
    requires ShortLines(text) && text != [] && IsBlank(text[0]) && k == LineEnd(text)
    ensures 1 < k <= |text| && ShortLines(text[1..]) && text[1..] != [] && LineEnd(text[1..]) == k - 1
    ensures text[..k][0] == text[0] && text[1..][..k - 1] == text[..k][1..] && text[1..][k - 1..] == text[k..]
  {
    ShortLine(text);
    TailLine(text, 1);
    TailSlices(text, k);
  }

  lemma {:induction false} TokenLenIs(s: seq<char>, t: nat)
    requires t <= |s| && (forall i :: 0 <= i < t ==> !IsDelimiter(s[i])) && (t < |s| ==> IsDelimiter(s[t]))
    ensures TokenLen(s) == t
  {
  }

  lemma {:induction false} TokenLenIn(text: seq<char>, k: nat)
    requires 0 < k <= |text| && text[k - 1] == '\n'
    ensures TokenLen(text) == TokenLen(text[..k]) < k
  {
    var t := TokenLen(text);
    assert forall i :: 0 <= i < k ==> text[..k][i] == text[i];
    assert t <= k - 1;
    TokenLenIs(text[..k], t);
  }

  /** A line that starts with a delimiter other than a space is passed over. */
  lemma {:induction false} NextAfterDelimiter(how: Search, text: seq<char>, left: int)
    requires Sound(how) && ShortLines(text) && text != [] && IsDelimiter(text[0]) && text[0] != ' '
    ensures var k := LineEnd(text);
            NextBy(how, text, left) ==
            if k >= left then (NoToken, k) else Further(NextBy(how, text[k..], left - k), k)
  {
    ShortLine(text);
    LookIs(text[..LineEnd(text)], 0, 0);
    LineFound(how, text, left);
  }

  /** A line that starts with a token yields it. */
  lemma {:induction false} NextInFront(how: Search, text: seq<char>, left: int)
    requires Sound(how) && ShortLines(text) && text != [] && !IsSeparator(text[0])
    ensures NextBy(how, text, left) == (Token(text[..TokenLen(text)]), TokenLen(text))
  {
    var k, t := LineEnd(text), TokenLen(text);
    var line := text[..k];
    ShortLine(text);
    TokenLenIn(text, k);
    assert t > 0 && forall i :: 0 <= i < k ==> line[i] == text[i];
    LookIs(line, 0, t);
    assert line[0..t] == text[..t];
    LineFound(how, text, left);
  }

  /** How much of a text is read: up to the end of the first line that ends at `left` or
      further. */
  function ReadPart(text: seq<char>, left: int): (m: nat)
    ensures m <= |text|
  {
    if left > |text| || text == [] then |text|
    else
      var i := FirstAt(text, '\n', if left > 0 then left - 1 else 0);
      if i < |text| then i + 1 else i
  }

  /** m is the end of the first line that ends at `left` or further, or of the text. */
  ghost predicate IsReadPart(text: seq<char>, left: int, m: nat) {
    && m <= |text| && (text != [] ==> m > 0 && text[m - 1] == '\n')
    && (m < |text| ==> m >= left)
    && forall i :: 0 <= i < m - 1 && text[i] == '\n' ==> i + 1 < left
  }

  lemma {:induction false} ReadPartIs(text: seq<char>, left: int)
    requires ShortLines(text)
    ensures IsReadPart(text, left, ReadPart(text, left))
  {
    if text != [] {
      assert ShortAt(text, 0) && ShortAt(text, |text| - 1);
      if 0 < left <= |text| {
        assert ShortAt(text, left - 1);
      }
    }
  }

  lemma {:induction false} ReadPartFrom(text: seq<char>, left: int, m: nat, i: nat)
    requires IsReadPart(text, left, m) && i <= m && (i < m || m == |text|)
    ensures IsReadPart(text[i..], left - i, m - i)
  {
    assert forall j :: 0 <= j < |text| - i ==> text[i..][j] == text[i + j];
  }

  lemma {:induction false} SkipTokens(how: Search, text: seq<char>, left: int, d: nat)
    requires Sound(how) && d <= |text| && NextBy(how, text, left) == Further(NextBy(how, text[d..], left - d), d)
    ensures TokensBy(how, text, left) == TokensBy(how, text[d..], left - d)
  {
    NextByWithin(how, text[d..], left - d);
    DropDrop(text, d, NextBy(how, text[d..], left - d).1);
  }

  lemma {:induction false} TokenThenTokens(how: Search, text: seq<char>, left: int, t: nat)
    requires 0 < t <= |text| && NextBy(how, text, left) == (Token(text[..t]), t)
    ensures TokensBy(how, text, left) == [text[..t]] + TokensBy(how, text[t..], left - t)
  {
  }

  lemma {:induction false} FirstAndOthers(how: Search, text: seq<char>, left: int, next: (Token, nat))
    requires Sound(how) && Terminated(text) && next == NextBy(how, text, left)
    ensures next.1 <= |text| && Terminated(text[next.1..]) && (next.0.Token? ==> next.1 > 0)
    ensures TokensBy(how, text, left) ==
            if next.0.NoToken? then [] else [next.0.text] + TokensBy(how, text[next.1..], left - next.1)
  {
    NextByWithin(how, text, left);
    TerminatedFrom(text, next.1);
  }

  /** The reader finds what a scan of the lines it reads finds. */
  lemma {:induction false} TokensAreScanned(how: Search, text: seq<char>, left: int, m: nat)
    requires Sound(how) && ShortLines(text) && IsReadPart(text, left, m)
    ensures TokensBy(how, text, left) == Scan(text[..m])
    decreases |text|, 1
  {
    if text == [] {
      assert CutsAt(how, text);
    } else if IsBlank(text[0]) {
      BlankInFront(how, text, left, m);
    } else if IsDelimiter(text[0]) {
      DelimiterInFront(how, text, left, m);
    } else {
      TokenInFront(how, text, left, m);
    }
  }

  lemma {:induction false} BlankInFront(how: Search, text: seq<char>, left: int, m: nat)
    requires Sound(how) && ShortLines(text) && text != [] && IsBlank(text[0]) && IsReadPart(text, left, m)
    ensures TokensBy(how, text, left) == Scan(text[..m])
    decreases |text|, 0
  {
    NextAfterBlank(how, text, left);
    SkipTokens(how, text, left, 1);
    ShortFrom(text, 1);
    ReadPartFrom(text, left, m, 1);
    TokensAreScanned(how, text[1..], left - 1, m - 1);
    ScanAfterBlank(text, m);
  }

  lemma {:induction false} ScanAfterBlank(text: seq<char>, m: nat)
    requires 0 < m <= |text| && IsBlank(text[0])
    ensures Scan(text[..m]) == Scan(text[1..][..m - 1])
  {
    TakeDrop(text, 1, m);
    assert text[..m][0] == text[0];
  }

  lemma {:induction false} DelimiterInFront(how: Search, text: seq<char>, left: int, m: nat)
    requires Sound(how) && ShortLines(text) && text != [] && IsDelimiter(text[0]) && text[0] != ' '
    requires IsReadPart(text, left, m)
    ensures TokensBy(how, text, left) == Scan(text[..m])
    decreases |text|, 0
  {
    var k := LineEnd(text);
    NextAfterDelimiter(how, text, left);
    LineOfPart(text, left, m);
    ScanAfterDelimiter(text, k, m);
    if k < left {
      SkipTokens(how, text, left, k);
      ShortFrom(text, k);
      ReadPartFrom(text, left, m, k);
      TokensAreScanned(how, text[k..], left - k, m - k);
    }
  }

  lemma {:induction false} LineOfPart(text: seq<char>, left: int, m: nat)
    requires ShortLines(text) && text != [] && IsReadPart(text, left, m)
    ensures 0 < LineEnd(text) <= m && text[LineEnd(text) - 1] == '\n'
    ensures LineEnd(text) >= left ==> m == LineEnd(text)
    ensures LineEnd(text) < m || m == |text| || LineEnd(text) >= left
  {
    ShortLine(text);
  }

  lemma {:induction false} TokenInFront(how: Search, text: seq<char>, left: int, m: nat)
    requires Sound(how) && ShortLines(text) && text != [] && !IsSeparator(text[0]) && IsReadPart(text, left, m)
    ensures TokensBy(how, text, left) == Scan(text[..m])
    decreases |text|, 0
  {
    var t := TokenLen(text);
    NextInFront(how, text, left);
    ScanInFront(text, m);
    ShortFrom(text, t);
    ReadPartFrom(text, left, m, t);
    TokensAreScanned(how, text[t..], left - t, m - t);
    TokenThenTokens(how, text, left, t);
  }

  lemma {:induction false} ScanInFront(text: seq<char>, m: nat)
    requires 0 < m <= |text| && text[m - 1] == '\n' && !IsSeparator(text[0])
    ensures var t := TokenLen(text); 0 < t < m && Scan(text[..m]) == [text[..t]] + Scan(text[t..][..m - t])
  {
    var t := TokenLen(text);
    TokenLenIn(text, m);
    TakeTake(text, t, m);
    TakeDrop(text, t, m);
    assert text[..m][0] == text[0];
  }

  lemma {:induction false} ScanAfterDelimiter(text: seq<char>, k: nat, m: nat)
    requires text != [] && IsDelimiter(text[0]) && text[0] != ' '
    requires k == LineEnd(text) <= m <= |text| && text[k - 1] == '\n'
    ensures Scan(text[..m]) == Scan(text[k..][..m - k])
    ensures m == k ==> Scan(text[..m]) == []
  {
    var front := text[..m];
    assert forall j :: 0 <= j < m ==> front[j] == text[j];
    NewlineAtIs(front, k - 1);
    TakeDrop(text, k, m);
  }

  /** The line-by-line reader finds what a scan of the lines it reads finds, ... */
  lemma {:induction false} TokensUpToAreScanned(text: seq<char>, left: int)
    requires ShortLines(text)
    ensures TokensUpTo(text, left) == Scan(text[..ReadPart(text, left)])
  {
    ByLineIs();
    ByLineIsSound(ByLine());
    ReadPartIs(text, left);
    TokensAreScanned(ByLine(), text, left, ReadPart(text, left));
  }

  /** ... and all tokens are what the one-pass scan finds. */
  lemma {:induction false} AllTokensIsScan(text: seq<char>)
    requires ShortLines(text)
    ensures AllTokens(text) == Scan(text)
  {
    ReadPartIs(text, |text|);
    TokensUpToAreScanned(text, |text|);
    assert text[..|text|] == text;
  }

  // ---- the tokens when the recorded length is too small ----

  lemma {:induction false} AppendDrop(a: seq<char>, b: seq<char>, i: nat)
    requires i <= |a|
    ensures (a + b)[i..] == a[i..] + b && (a + b)[..i] == a[..i]
  {
  }

  lemma {:induction false} ScanConcat(a: seq<char>, b: seq<char>)
    requires a == [] || a[|a| - 1] == '\n'
    ensures Scan(a + b) == Scan(a) + Scan(b)
    decreases |a|
  {
    if a == [] {
      assert a + b == b;
    } else if IsBlank(a[0]) || a[0] == '\n' {
      AppendDrop(a, b, 1);
      ScanConcat(a[1..], b);
    } else if a[0] == ',' || a[0] == '\r' {
      NewlineConcat(a, b);
      AppendDrop(a, b, LineEnd(a));
      ScanConcat(a[LineEnd(a)..], b);
    } else {
      ScanTokenConcat(a, b);
      ScanConcat(a[TokenLen(a)..], b);
      Regroup(a[..TokenLen(a)], Scan(a[TokenLen(a)..]), Scan(b));
    }
  }

  lemma {:induction false} Regroup(token: seq<char>, a: seq<seq<char>>, b: seq<seq<char>>)
    ensures [token] + (a + b) == ([token] + a) + b
  {
  }

  lemma {:induction false} ScanTokenConcat(a: seq<char>, b: seq<char>)
    requires a != [] && a[|a| - 1] == '\n' && !IsSeparator(a[0])
    ensures 0 < TokenLen(a) < |a|
    ensures Scan(a + b) == [a[..TokenLen(a)]] + Scan(a[TokenLen(a)..] + b)
  {
    TokenLenConcat(a, b);
    AppendDrop(a, b, TokenLen(a));
    assert (a + b)[0] == a[0];
  }

  lemma {:induction false} NewlineConcat(a: seq<char>, b: seq<char>)
    requires a != [] && a[|a| - 1] == '\n'
    ensures NewlineAt(a + b) == NewlineAt(a) < |a|
  {
    var i := NewlineAt(a);
    assert forall j :: 0 <= j < |a| ==> (a + b)[j] == a[j];
    NewlineAtIs(a + b, i);
  }

  lemma {:induction false} ScanInTwo(text: seq<char>, left: int)
    requires ShortLines(text)
    ensures var m := ReadPart(text, left); Scan(text) == Scan(text[..m]) + Scan(text[m..])
  {
    var m := ReadPart(text, left);
    ReadPartIs(text, left);
    assert text == text[..m] + text[m..];
    ScanConcat(text[..m], text[m..]);
  }

  /** With any recorded length the tokens found are those of the lines up to the first one that
      ends at that length or further, ... */
  lemma {:induction false} TokensUpToAreOfPart(text: seq<char>, left: int)
    requires ShortLines(text)
    ensures TokensUpTo(text, left) == AllTokens(text[..ReadPart(text, left)])
  {
    ReadPartIs(text, left);
    ShortUpTo(text, ReadPart(text, left));
    TokensUpToAreScanned(text, left);
    AllTokensIsScan(text[..ReadPart(text, left)]);
  }

  /** ... and the others are those of the text behind. */
  lemma {:induction false} TokensUpToArePrefix(text: seq<char>, left: int)
    requires ShortLines(text)
    ensures AllTokens(text) == TokensUpTo(text, left) + AllTokens(text[ReadPart(text, left)..])
  {
    ShortFrom(text, ReadPart(text, left));
    TokensUpToAreScanned(text, left);
    AllTokensIsScan(text);
    AllTokensIsScan(text[ReadPart(text, left)..]);
    ScanInTwo(text, left);
  }

  /** Reading all tokens of a file finds all there are exactly if there is none behind the
      first line that ends at the recorded length or further. */
  lemma {:induction false} AllTokensFoundIff(text: seq<char>, left: int)
    requires ShortLines(text)
    ensures TokensUpTo(text, left) == AllTokens(text) <==> AllTokens(text[ReadPart(text, left)..]) == []
  {
    TokensUpToArePrefix(text, left);
  }

  // ---- the tokens and the words ----

  ghost predicate OnlySeparators(s: seq<char>) {
    forall i :: 0 <= i < |s| ==> IsSeparator(s[i])
  }

  /** In every line nothing but separators follows the first comma or carriage return. */
  ghost predicate CommasTrail(text: seq<char>)
    decreases |text|
  {
    text != [] ==>
      if text[0] == ',' || text[0] == '\r'
      then OnlySeparators(text[..LineEnd(text)]) && CommasTrail(text[LineEnd(text)..])
      else CommasTrail(text[1..])
  }

  /** Splitting can be cut after any delimiter. */
  lemma {:induction false} WordsConcat(a: seq<char>, b: seq<char>)
    requires a != [] && IsDelimiter(a[|a| - 1])
    ensures Words(a + b) == Words(a) + Words(b)
    decreases |a|
  {
    var t := TokenLen(a);
    TokenLenConcat(a, b);
    if IsSeparator(a[0]) {
      assert (a + b)[1..] == a[1..] + b;
      if |a| > 1 {
        WordsConcat(a[1..], b);
      } else {
        assert a[1..] + b == b;
      }
    } else {
      assert (a + b)[..t] == a[..t] && (a + b)[t..] == a[t..] + b;
      WordsConcat(a[t..], b);
      assert [a[..t]] + (Words(a[t..]) + Words(b)) == ([a[..t]] + Words(a[t..])) + Words(b);
    }
  }

  lemma {:induction false} TokenLenConcat(a: seq<char>, b: seq<char>)
    requires a != [] && IsDelimiter(a[|a| - 1])
    ensures TokenLen(a + b) == TokenLen(a) < |a|
  {
    assert forall j :: 0 <= j < |a| ==> (a + b)[j] == a[j];
    TokenLenIs(a + b, TokenLen(a));
  }

  lemma {:induction false} WordsOfSeparators(s: seq<char>)
    ensures Words(s) == [] <==> OnlySeparators(s)
    decreases |s|
  {
    if s != [] && IsSeparator(s[0]) {
      WordsOfSeparators(s[1..]);
      assert s == [s[0]] + s[1..];
    } else if s != [] {
      assert !IsSeparator(s[0]);
    }
  }

  lemma {:induction false} CommasTrailAfterToken(text: seq<char>, t: nat)
    requires t <= TokenLen(text)
    ensures CommasTrail(text) <==> CommasTrail(text[t..])
  {
    if t > 0 {
      CommasTrailAfterToken(text[1..], t - 1);
      assert text[1..][t - 1..] == text[t..];
    } else {
      assert text[0..] == text;
    }
  }

  /** Dropping the rest of a line drops no word only if it has none. */
  lemma {:induction false} DroppedWords(text: seq<char>, k: nat)
    requires 0 < k <= |text| && IsDelimiter(text[k - 1])
    ensures |Words(text)| >= |Words(text[k..])|
    ensures OnlySeparators(text[..k]) ==> Words(text) == Words(text[k..])
    ensures !OnlySeparators(text[..k]) ==> |Words(text)| > |Words(text[k..])|
  {
    assert text == text[..k] + text[k..];
    WordsConcat(text[..k], text[k..]);
    WordsOfSeparators(text[..k]);
  }

  /** The scan finds a word for a word until it drops the rest of a line. */
  lemma {:induction false} ScanAgainstWords(text: seq<char>)
    requires ShortLines(text)
    ensures |Scan(text)| <= |Words(text)|
    ensures Scan(text) == Words(text) <==> CommasTrail(text)
    decreases |text|
  {
    if text != [] {
      if text[0] == ',' || text[0] == '\r' {
        ShortLine(text);
        ShortFrom(text, LineEnd(text));
        ScanAgainstWords(text[LineEnd(text)..]);
        DroppedWords(text, LineEnd(text));
      } else if IsSeparator(text[0]) {
        ShortFrom(text, 1);
        ScanAgainstWords(text[1..]);
      } else {
        var t := TokenLen(text);
        assert t > 0;
        ShortFrom(text, t);
        ScanAgainstWords(text[t..]);
        CommasTrailAfterToken(text, t);
        assert Scan(text)[1..] == Scan(text[t..]) && Words(text)[1..] == Words(text[t..]);
      }
    }
  }

  /** Reading all tokens of a file splits its text at spaces, commas, newlines and carriage
      returns exactly if nothing but such characters follows the first comma or carriage
      return of a line; anything else there is never returned. */
  lemma {:induction false} TokensAreWordsIff(text: seq<char>)
    requires ShortLines(text)
    ensures AllTokens(text) == Words(text) <==> CommasTrail(text)
  {
    AllTokensIsScan(text);
    ScanAgainstWords(text);
  }

  /** The ordinary case: text without commas and carriage returns. */
  lemma {:induction false} TokensAreWords(text: seq<char>)
    requires ShortLines(text) && ',' !in text && '\r' !in text
    ensures AllTokens(text) == Words(text)
  {
    NoCommasTrail(text);
    TokensAreWordsIff(text);
  }

  lemma {:induction false} NoCommasTrail(text: seq<char>)
    requires ',' !in text && '\r' !in text
    ensures CommasTrail(text)
  {
    if text != [] {
      assert text[0] in text;
      assert forall c :: c in text[1..] ==> c in text;
      NoCommasTrail(text[1..]);
    }
  }

  /** Spaces and tabs. */
  ghost predicate Blank(s: seq<char>) {
    forall i :: 0 <= i < |s| ==> s[i] == ' ' || s[i] == '\t'
  }

  /** Some characters that a token is made of; a tab may not come first. */
  ghost predicate Word(s: seq<char>) {
    && s != [] && s[0] != '\t'
    && forall i :: 0 <= i < |s| ==> s[i] != ' ' && s[i] != ',' && s[i] != '\n' && s[i] != '\r'
  }

  /** Spaces and tabs in front of a word are passed over, and the word is a token if a space, a
      comma, a newline or a carriage return ends it. */
  lemma {:induction false} WordComesFirst(blanks: seq<char>, word: seq<char>, rest: seq<char>)
    requires Blank(blanks) && Word(word) && ShortLines(blanks + word + rest)
    requires rest != [] && (rest[0] == ' ' || rest[0] == ',' || rest[0] == '\n' || rest[0] == '\r')
    ensures ShortLines(rest) && AllTokens(blanks + word + rest) == [word] + AllTokens(rest)
  {
    var text := blanks + word + rest;
    ShortFrom(text, |blanks + word|);
    assert text[|blanks + word|..] == rest;
    ScanWord(blanks, word, rest);
    AllTokensIsScan(text);
    AllTokensIsScan(rest);
  }

  lemma {:induction false} ScanWord(blanks: seq<char>, word: seq<char>, rest: seq<char>)
    requires Blank(blanks) && Word(word)
    requires rest != [] && (rest[0] == ' ' || rest[0] == ',' || rest[0] == '\n' || rest[0] == '\r')
    ensures Scan(blanks + word + rest) == [word] + Scan(rest)
    decreases |blanks|
  {
    var text := blanks + word + rest;
    if blanks == [] {
      assert text == word + rest;
      TokenLenIs(text, |word|);
      assert text[..|word|] == word && text[|word|..] == rest;
    } else {
      ScanWord(blanks[1..], word, rest);
      assert text[1..] == blanks[1..] + word + rest;
    }
  }

  /** What follows a comma or carriage return that ends no word is not looked at, up to the end
      of the line. */
  lemma {:induction false} CommaDropsLine(c: char, dropped: seq<char>, rest: seq<char>)
    requires (c == ',' || c == '\r') && '\n' !in dropped && ShortLines([c] + dropped + ['\n'] + rest)
    ensures ShortLines(rest) && AllTokens([c] + dropped + ['\n'] + rest) == AllTokens(rest)
  {
    var text := [c] + dropped + ['\n'] + rest;
    var k := |dropped| + 1;
    assert forall i :: 0 < i < k ==> text[i] == dropped[i - 1];
    NewlineAtIs(text, k);
    ShortFrom(text, k + 1);
    assert text[k + 1..] == rest;
    AllTokensIsScan(text);
    AllTokensIsScan(rest);
  }

  /** A text that fits into the buffer. */
  lemma {:induction false} SmallIsShort(text: seq<char>)
    requires 0 < |text| < MAX_LINE && text[|text| - 1] == '\n' && '\0' !in text
    ensures ShortLines(text)
  {
    forall i | 0 <= i < |text| ensures ShortAt(text, i) {
      assert text[|text| - 1] == '\n' && text[i] in text;
    }
  }

  lemma {:induction false} LastWord()
    ensures Words("b\n") == ["b"]
  {
    assert TokenLen("b\n") == 1 && "b\n"[..1] == "b" && "b\n"[1..] == "\n" && "\n"[1..] == [];
    assert Words("\n") == [];
  }

  lemma {:induction false} CommaWords()
    ensures Words("a,b\n") == ["a", "b"]
  {
    LastWord();
    assert TokenLen("a,b\n") == 1 && "a,b\n"[..1] == "a" && "a,b\n"[1..] == ",b\n" && ",b\n"[1..] == "b\n";
    assert Words(",b\n") == ["b"];
    assert ["a"] + ["b"] == ["a", "b"];
  }

  lemma {:induction false} CommaScan()
    ensures Scan("a,b\n") == ["a"]
  {
    assert TokenLen("a,b\n") == 1 && "a,b\n"[..1] == "a" && "a,b\n"[1..] == ",b\n";
    NewlineAtIs(",b\n", 2);
    assert ",b\n"[3..] == [];
  }

  /** "a,b" yields one token. */
  lemma {:induction false} CommaHidesToken()
    ensures var text := "a,b\n"; ShortLines(text) && Words(text) == ["a", "b"] && AllTokens(text) == ["a"]
  {
    SmallIsShort("a,b\n");
    CommaWords();
    CommaScan();
    AllTokensIsScan("a,b\n");
  }

  /** Of a new file, whose recorded length is 0, only the first line is read: nothing of
      "\nb\n". */
  lemma {:induction false} NewFileHidesToken()
    ensures ShortLines("\nb\n") && TokensUpTo("\nb\n", 0) == [] && AllTokens("\nb\n") == ["b"]
  {
    SmallIsShort("\nb\n");
    TokensUpToAreScanned("\nb\n", 0);
    AllTokensIsScan("\nb\n");
    NewFileScan();
  }

  lemma {:induction false} NewFileScan()
    ensures ReadPart("\nb\n", 0) == 1 && Scan("\nb\n"[..1]) == [] && Scan("\nb\n") == ["b"]
  {
    assert FirstAt("\nb\n", '\n', 0) == 0 && "\nb\n"[..1] == "\n" && "\n"[1..] == [];
    assert "\nb\n"[1..] == "b\n" && TokenLen("b\n") == 1 && "b\n"[..1] == "b" && "b\n"[1..] == "\n";
  }
}
