/** What a reader that takes one character at a time would call a line: up to n characters,
    ending early after a newline or a null character, or at the end of the text. */
module Lines {
  predicate IsStop(c: char) {
    c == '\0' || c == '\n'
  }

  /** The length of the line of up to n characters that begins at i. */
  function LineLenFrom(rest: seq<char>, i: nat, n: nat): nat
    decreases n
  {
    if i >= |rest| || n == 0 then 0
    else if IsStop(rest[i]) then 1
    else 1 + LineLenFrom(rest, i + 1, n - 1)
  }

  function LineLen(rest: seq<char>, n: nat): nat {
    LineLenFrom(rest, 0, n)
  }

  ghost predicate NoStop(s: seq<char>) {
    forall i :: 0 <= i < |s| ==> !IsStop(s[i])
  }

  lemma {:induction false} LineLenFromIff(rest: seq<char>, i: nat, n: nat, k: nat)
    requires i <= |rest|
    ensures k == LineLenFrom(rest, i, n) <==>
              && k <= n && i + k <= |rest|
              && (forall j :: i <= j < i + k - 1 ==> !IsStop(rest[j]))
              && (k == n || i + k == |rest| || (k > 0 && IsStop(rest[i + k - 1])))
    decreases n
  {
    if i < |rest| && n > 0 && !IsStop(rest[i]) && k > 0 {
      LineLenFromIff(rest, i + 1, n - 1, k - 1);
    }
  }

  /** LineLen is the one length that such a reader stops at. */
  lemma {:induction false} LineLenIff(rest: seq<char>, n: nat, k: nat)
    ensures k == LineLen(rest, n) <==>
              && k <= n && k <= |rest|
              && (k > 0 ==> NoStop(rest[..k - 1]))
              && (k == n || k == |rest| || (k > 0 && IsStop(rest[k - 1])))
  {
    LineLenFromIff(rest, 0, n, k);
    if 0 < k <= |rest| {
      assert forall j :: 0 <= j < k - 1 ==> rest[..k - 1][j] == rest[j];
    }
  }

  // ---- repeated reading ----

  /** What successive calls with limits `sizes` take, and what they leave. */
  function Segments(rest: seq<char>, sizes: seq<nat>): seq<seq<char>> {
    if sizes == [] then []
    else
      var k := Taken(rest, sizes[0]);
      [rest[..k]] + Segments(rest[k..], sizes[1..])
  }

  function Remainder(rest: seq<char>, sizes: seq<nat>): seq<char> {
    if sizes == [] then rest else Remainder(rest[Taken(rest, sizes[0])..], sizes[1..])
  }

  function Taken(rest: seq<char>, n: nat): (k: nat)
    ensures k <= |rest| && k <= n
    ensures rest != [] && n > 0 ==> k > 0
  {
    LineLenIff(rest, n, LineLen(rest, n));
    LineLen(rest, n)
  }

  function Flatten(segments: seq<seq<char>>): seq<char> {
    if segments == [] then [] else segments[0] + Flatten(segments[1..])
  }

  function Successes(segments: seq<seq<char>>): nat {
    if segments == [] then 0 else (if segments[0] == [] then 0 else 1) + Successes(segments[1..])
  }

  lemma {:induction false} FlattenFront(front: seq<char>, tail: seq<seq<char>>, left: seq<char>)
    ensures Flatten([front] + tail) + left == front + (Flatten(tail) + left)
  {
    assert ([front] + tail)[1..] == tail;
  }

  /** Repeated reads cut the text into pieces: nothing is lost and nothing comes twice. */
  lemma {:induction false} ReadsPartition(rest: seq<char>, sizes: seq<nat>)
    ensures Flatten(Segments(rest, sizes)) + Remainder(rest, sizes) == rest
    decreases |sizes|
  {
    if sizes != [] {
      var k := Taken(rest, sizes[0]);
      var front, tail, left := rest[..k], Segments(rest[k..], sizes[1..]), Remainder(rest[k..], sizes[1..]);
      ReadsPartition(rest[k..], sizes[1..]);
      assert Flatten(tail) + left == rest[k..] && front + rest[k..] == rest;
      FlattenFront(front, tail, left);
      assert Segments(rest, sizes) == [front] + tail;
    }
  }

  /** At most as many reads succeed as there are characters, and that many reads with limits
      of at least 1 reach the end. */
  lemma {:induction false} ReadsReachTheEnd(rest: seq<char>, sizes: seq<nat>)
    ensures Successes(Segments(rest, sizes)) <= |rest| - |Remainder(rest, sizes)|
    ensures |sizes| >= |rest| && (forall i :: 0 <= i < |sizes| ==> sizes[i] >= 1) ==> Remainder(rest, sizes) == []
    decreases |sizes|
  {
    if sizes != [] {
      var k := Taken(rest, sizes[0]);
      ReadsReachTheEnd(rest[k..], sizes[1..]);
      assert Segments(rest, sizes)[1..] == Segments(rest[k..], sizes[1..]);
    }
  }

  // ---- what the buffer holds after a read ----

  /** A read of up to n characters of `rest` into a buffer that held `before`, when the file
      reports its end or not; `ok` is whether the read returns the buffer. */
  ghost predicate Delivered(before: seq<char>, after: seq<char>, rest: seq<char>, n: nat, atEnd: bool, ok: bool)
    requires 1 <= n <= |before| == |after|
  {
    var k := Taken(rest, n);
    && after[..k] == rest[..k]
    && after[n..] == before[n..]
    && (ok <==> Cut(rest, n) || (k > 0 && atEnd))
    && (k > 0 && rest[k - 1] == '\n' && k < n ==> after[k] == '\0')
    && (k == 0 ==> after[0] == '\0')
    && (!Cut(rest, n) && k > 0 && k == n - 1 ==> after[k] == '\0')
    && (!Cut(rest, n) && 0 < k < n - 1 ==> after[k] == before[k] && (ok ==> after[k + 1] == '\0'))
  }

  /** The read ends because of a stop character or the limit, not because the text does. */
  predicate Cut(rest: seq<char>, n: nat) {
    var k := Taken(rest, n);
    k > 0 && (IsStop(rest[k - 1]) || k == n)
  }

  /** With the end of the file reported at least where it is, a read succeeds exactly if there
      is anything left. */
  lemma {:induction false} ReadSucceedsIff(
      before: seq<char>, after: seq<char>, rest: seq<char>, n: nat, atEnd: bool, ok: bool)
    requires 1 <= n <= |before| == |after| && Delivered(before, after, rest, n, atEnd, ok)
    requires Taken(rest, n) == |rest| ==> atEnd
    ensures ok <==> rest != []
  {
    LineLenIff(rest, n, Taken(rest, n));
  }

  /** Whether a read succeeds when the end is reported at `left` and further: a last line that
      is not terminated is stored without success if that is too far. */
  predicate Succeeds(rest: seq<char>, n: nat, left: int) {
    Cut(rest, n) || (Taken(rest, n) > 0 && Taken(rest, n) >= left)
  }

  /** How many of successive reads succeed. */
  function Succeeding(rest: seq<char>, sizes: seq<nat>, left: int): nat {
    if sizes == [] then 0
    else
      var k := Taken(rest, sizes[0]);
      (if Succeeds(rest, sizes[0], left) then 1 else 0) + Succeeding(rest[k..], sizes[1..], left - k)
  }

  ghost predicate Positive(sizes: seq<nat>) {
    forall i :: 0 <= i < |sizes| ==> sizes[i] >= 1
  }

  /** Every read that stores something succeeds if the end is not reported too far or the text
      does not end in the middle of a line. */
  lemma {:induction false} AllSucceed(rest: seq<char>, sizes: seq<nat>, left: int)
    requires Positive(sizes) && (left <= |rest| || rest == [] || IsStop(rest[|rest| - 1]))
    ensures Succeeding(rest, sizes, left) == Successes(Segments(rest, sizes))
    decreases |sizes|
  {
    if sizes != [] {
      var n := sizes[0];
      var k := Taken(rest, n);
      LineLenIff(rest, n, k);
      AllSucceed(rest[k..], sizes[1..], left - k);
      SegmentsFrom(rest, sizes);
    }
  }

  lemma {:induction false} SegmentsFrom(rest: seq<char>, sizes: seq<nat>)
    requires sizes != []
    ensures var k := Taken(rest, sizes[0]);
            Successes(Segments(rest, sizes)) ==
            (if k > 0 then 1 else 0) + Successes(Segments(rest[k..], sizes[1..]))
  {
    var k := Taken(rest, sizes[0]);
    assert Segments(rest, sizes)[1..] == Segments(rest[k..], sizes[1..]);
  }

  /** Otherwise reading with large limits fails at the last line. */
  lemma {:induction false} LastFails(rest: seq<char>, left: int) returns (sizes: seq<nat>)
    requires left > |rest| > 0 && !IsStop(rest[|rest| - 1])
    ensures Positive(sizes) && Succeeding(rest, sizes, left) < Successes(Segments(rest, sizes))
    decreases |rest|
  {
    var n := |rest| + 1;
    var k := Taken(rest, n);
    var tail: seq<nat> := [];
    LineLenIff(rest, n, k);
    if k < |rest| {
      tail := LastFails(rest[k..], left - k);
    }
    sizes := [n] + tail;
    assert sizes[1..] == tail;
    SegmentsFrom(rest, sizes);
  }

  /** No read that stores something fails, whatever the limits, exactly if the recorded length
      is not beyond the end of the file or the last line is terminated. */
  lemma {:induction false} NoReadFailsIff(rest: seq<char>, left: int)
    ensures (forall sizes :: Positive(sizes) ==> Succeeding(rest, sizes, left) == Successes(Segments(rest, sizes)))
            <==> left <= |rest| || rest == [] || IsStop(rest[|rest| - 1])
  {
    if left <= |rest| || rest == [] || IsStop(rest[|rest| - 1]) {
      forall sizes | Positive(sizes)
        ensures Succeeding(rest, sizes, left) == Successes(Segments(rest, sizes))
      {
        AllSucceed(rest, sizes, left);
      }
    } else {
      var sizes := LastFails(rest, left);
      assert Positive(sizes) && Succeeding(rest, sizes, left) != Successes(Segments(rest, sizes));
    }
  }

  /** The C string at the start of a buffer, if a terminator is within it. */
  function CString(buffer: seq<char>): seq<char> {
    if buffer == [] || buffer[0] == '\0' then [] else [buffer[0]] + CString(buffer[1..])
  }

  lemma {:induction false} CStringIs(buffer: seq<char>, k: nat)
    requires k <= |buffer| && (forall i :: 0 <= i < k ==> buffer[i] != '\0')
    ensures k < |buffer| && buffer[k] == '\0' ==> CString(buffer) == buffer[..k]
    ensures k < |buffer| && buffer[k] != '\0' ==> |CString(buffer)| > k
    ensures k == |buffer| ==> CString(buffer) == buffer
  {
    if k > 0 {
      CStringIs(buffer[1..], k - 1);
      assert buffer == [buffer[0]] + buffer[1..];
      assert buffer[..k] == [buffer[0]] + buffer[1..][..k - 1];
    }
  }

  /** A line whose newline fits below the limit is a C string. */
  lemma {:induction false} LineIsString(
      before: seq<char>, after: seq<char>, rest: seq<char>, n: nat, atEnd: bool, ok: bool)
    requires 1 <= n <= |before| == |after| && Delivered(before, after, rest, n, atEnd, ok)
    requires var k := Taken(rest, n); 0 < k < n && rest[k - 1] == '\n'
    ensures ok && CString(after) == rest[..Taken(rest, n)]
  {
    var k := Taken(rest, n);
    LineLenIff(rest, n, k);
    forall i | 0 <= i < k ensures after[i] != '\0' {
      assert after[i] == after[..k][i] == rest[i];
      assert i < k - 1 ==> rest[i] == rest[..k - 1][i];
    }
    CStringIs(after, k);
  }

  /** At the limit there is no terminator inside the limit. */
  lemma {:induction false} LimitHasNoTerminator(
      before: seq<char>, after: seq<char>, rest: seq<char>, n: nat, atEnd: bool, ok: bool)
    requires 1 <= n <= |before| == |after| && Delivered(before, after, rest, n, atEnd, ok)
    requires Taken(rest, n) == n && rest[n - 1] != '\0'
    ensures ok && '\0' !in after[..n]
  {
    LineLenIff(rest, n, n);
    forall i | 0 <= i < n ensures after[..n][i] != '\0' {
      assert after[..n][i] == rest[..n][i];
      assert i < n - 1 ==> rest[i] == rest[..n - 1][i];
    }
  }

  /** At the end of a text without a final newline the terminator is put one slot too far, so
      the buffer holds the text as a C string exactly if the limit was one character away or
      the slot in between happened to hold a null character already. */
  lemma {:induction false} LastLineIsStringIff(before: seq<char>, after: seq<char>, rest: seq<char>, n: nat, ok: bool)
    requires 1 <= n <= |before| == |after| && Delivered(before, after, rest, n, true, ok)
    requires !Cut(rest, n) && rest != []
    ensures ok && Taken(rest, n) == |rest| < n
    ensures CString(after) == rest <==> |rest| == n - 1 || before[|rest|] == '\0'
  {
    var k := Taken(rest, n);
    LineLenIff(rest, n, k);
    assert k == |rest|;
    forall i | 0 <= i < k ensures after[i] != '\0' {
      assert after[i] == after[..k][i] == rest[i];
      assert i < k - 1 ==> rest[i] == rest[..k - 1][i];
    }
    CStringIs(after, k);
    assert rest[..k] == rest;
  }

  /** "ab" at the end of a file, read into a buffer of five x, comes out as "abx". */
  lemma {:induction false} LastLineIsNotString()
    ensures var after := ['a', 'b', 'x', '\0', '\0'];
            Delivered("xxxxx", after, "ab", 5, true, true) && CString(after) == "abx"
  {
    var after := ['a', 'b', 'x', '\0', '\0'];
    assert NoStop("ab");
    LineLenIff("ab", 5, 2);
    assert "ab"[..2] == "ab" && after[..2] == "ab" && after[..3] == "abx";
    CStringIs(after, 3);
  }
}
