/** Character input and output of vm_file on Windows, over a byte sequence with a position. */
module TextFile {
  import opened Lines
  import opened NewLines
  import opened CStrings
  import T = Tokens

  /** crcounts */
  method CountNewlines(s: array<char>, ghost len: nat) returns (rtv: nat)
    requires IsCString(s, len)
    ensures rtv == Newlines(s[..len])
  {
    rtv := 0;
    var i := 0;
    assert s[..0] == [];
    while s[i] != '\0'
      invariant i <= len && rtv == Newlines(s[..i])
      decreases len - i
    {
      assert s[..i + 1] == s[..i] + [s[i]];
      ExpandConcat(s[..i], [s[i]]);
      if s[i] == '\n' {
        rtv := rtv + 1;
      }
      i := i + 1;
    }
  }

  /** extcpy */
  method ExtCpy(to: array<char>, from: array<char>, ghost len: nat)
    requires to != from && IsCString(from, len) && |Expand(from[..len])| < to.Length
    modifies to
    ensures IsCString(to, |Expand(from[..len])|)
    ensures to[..|Expand(from[..len])|] == Expand(from[..len])
  {
    var i, j := 0, 0;
    assert from[..0] == [];
    while from[i] != '\0'
      invariant i <= len && j == |Expand(from[..i])| < to.Length && to[..j] == Expand(from[..i])
      decreases len - i
    {
      assert from[..i + 1] == from[..i] + [from[i]];
      ExpandConcat(from[..i], [from[i]]);
      assert from[..len] == from[..i + 1] + from[i + 1..len];
      ExpandConcat(from[..i + 1], from[i + 1..len]);
      if from[i] == '\n' {
        to[j] := '\r';
        to[j + 1] := '\n';
        j := j + 2;
      } else {
        to[j] := from[i];
        j := j + 1;
      }
      i := i + 1;
    }
    ExpandHasNoNull(from[..len]);
    to[j] := '\0';
  }

  lemma {:induction false} ExpandHasNoNull(s: seq<char>)
    requires '\0' !in s
    ensures '\0' !in Expand(s)
  {
    if s != [] {
      assert s[0] in s && forall c :: c in s[1..] ==> c in s;
      ExpandHasNoNull(s[1..]);
    }
  }

  /** Bytes written over what is there, growing the file at its end. */
  function Overwrite(contents: seq<char>, pos: nat, data: seq<char>): seq<char>
    requires pos <= |contents|
  {
    if pos + |data| <= |contents| then contents[..pos] + data + contents[pos + |data|..]
    else contents[..pos] + data
  }

  /** Every character ends up where it was written, all others stay where they are, and the file
      is as long as it was or as the writing got. */
  lemma {:induction false} OverwriteAt(contents: seq<char>, pos: nat, data: seq<char>, i: nat)
    requires pos <= |contents|
    ensures var after := Overwrite(contents, pos, data);
            && |after| == (if pos + |data| > |contents| then pos + |data| else |contents|)
            && (i < |after| ==> after[i] == if pos <= i < pos + |data| then data[i - pos] else contents[i])
  {
  }

  lemma {:induction false} OverwriteTwice(contents: seq<char>, pos: nat, a: seq<char>, b: seq<char>)
    requires pos <= |contents|
    ensures pos + |a| <= |Overwrite(contents, pos, a)|
    ensures Overwrite(Overwrite(contents, pos, a), pos + |a|, b) == Overwrite(contents, pos, a + b)
  {
    var once := Overwrite(contents, pos, a);
    assert once[..pos + |a|] == contents[..pos] + a;
    assert contents[..pos] + a + b == contents[..pos] + (a + b);
    if pos + |a| + |b| <= |contents| {
      assert once[pos + |a| + |b|..] == contents[pos + |a| + |b|..];
    }
  }

  /** Two texts put out one after the other are written as their concatenation would be. */
  lemma {:induction false} PutsConcat(contents: seq<char>, pos: nat, a: seq<char>, b: seq<char>)
    requires pos <= |contents|
    ensures PutThere(PutThere((contents, pos), a), b) == PutThere((contents, pos), a + b)
  {
    ExpandConcat(a, b);
    OverwriteTwice(contents, pos, Expand(a), Expand(b));
  }

  /** A file's bytes and position after a text has been put out. */
  function PutThere(file: (seq<char>, nat), s: seq<char>): (r: (seq<char>, nat))
    requires file.1 <= |file.0|
    ensures r.1 <= |r.0|
  {
    (Overwrite(file.0, file.1, Expand(s)), file.1 + |Expand(s)|)
  }

  /** vm_file for a disk file. `size` is the length the file had before it was opened, 0 for a
      new one; what is written to the file or cut off when it is opened does not change it. */
  class VmFile {
    var contents: seq<char>
    var pos: nat
    const size: nat
    const binary: bool
    const tbuf: array<char>
    var lnpos: nat
    var lnchar: char

    ghost predicate Valid()
      reads this
    {
      pos <= |contents| && tbuf.Length == T.MAX_LINE
    }

    ghost function Rest(): seq<char>
      requires Valid()
      reads this
    {
      contents[pos..]
    }

    constructor (contents: seq<char>, size: nat, binary: bool)
      ensures Valid() && fresh(tbuf)
      ensures this.contents == contents && pos == 0 && this.size == size && this.binary == binary
    {
      this.contents, this.pos, this.size, this.binary := contents, 0, size, binary;
      tbuf := new char[T.MAX_LINE];
      lnpos, lnchar := 0, '\0';
    }

    /** vm_file_fread into tbuf; the system may return fewer bytes than there are, but none
        only at the end of the file. */
    method Fread() returns (count: nat)
      requires Valid()
      modifies this`pos, tbuf
      ensures Valid()
      ensures count <= T.MAX_LINE && pos == old(pos) + count
      ensures tbuf[..count] == old(Rest())[..count] && Rest() == old(Rest())[count..]
      ensures count == 0 <==> old(pos) == |contents|
    {
      count := 0;
      if pos < |contents| {
        var most := if |contents| - pos < T.MAX_LINE then |contents| - pos else T.MAX_LINE;
        assert 1 <= most;
        count :| 1 <= count <= most;
        forall i | 0 <= i < count {
          tbuf[i] := contents[pos + i];
        }
        pos := pos + count;
      }
    }

    /** vm_file_fseek from the current position. */
    method SeekCurrent(offset: int)
      requires Valid() && 0 <= pos + offset <= |contents|
      modifies this`pos
      ensures Valid() && pos == old(pos) + offset
    {
      pos := pos + offset;
    }

    /** vm_file_feof */
    predicate Feof()
      reads this
    {
      pos >= size
    }

    /** The inner loop of vm_file_fgets: characters of one chunk go to the string until a stop
        character or the limit; the one that ends the loop is stored as well. */
    method CopyChunk(str: array<char>, j0: nat, n: nat, count: nat, ghost before: seq<char>, ghost rest: seq<char>)
      returns (i: nat, j: nat)
      requires str != tbuf && 1 <= n <= str.Length == |before| && count <= tbuf.Length
      requires Partial(before, str[..], rest, j0, n)
      requires j0 + count <= |rest| && tbuf[..count] == rest[j0..j0 + count]
      modifies str
      ensures i <= count && j == j0 + i
      ensures if i < count then Stopped(before, str[..], rest, j, n) else Partial(before, str[..], rest, j, n)
    {
      i, j := 0, j0;
      while i < count
        invariant i <= count && j == j0 + i
        invariant Partial(before, str[..], rest, j, n)
      {
        assert tbuf[i] == tbuf[..count][i] == rest[j];
        ghost var was := str[..];
        str[j] := tbuf[i];
        assert str[..] == was[j := rest[j]];
        if str[j] == '\0' || str[j] == '\n' || j >= n - 1 {
          StopHere(before, was, rest, j, n);
          return;
        }
        GoOn(before, was, rest, j, n);
        i := i + 1;
        j := j + 1;
      }
    }

    /** Puts a null character behind a newline if there is room. */
    method EndLine(str: array<char>, j: nat, n: nat, ghost before: seq<char>, ghost rest: seq<char>)
      requires 1 <= n <= str.Length == |before| && Stopped(before, str[..], rest, j, n)
      modifies str
      ensures Taken(rest, n) == j + 1
      ensures forall atEnd :: Delivered(before, str[..], rest, n, atEnd, true)
    {
      ghost var was := str[..];
      assert str[j] == was[j];
      if str[j] == '\n' && j < n - 1 {
        str[j + 1] := '\0';
      }
      assert str[..] == if was[j] == '\n' && j < n - 1 then was[j + 1 := '\0'] else was;
      StoppedDelivers(before, was, str[..], rest, j, n, true);
      forall atEnd ensures Delivered(before, str[..], rest, n, atEnd, true) {
        StoppedDelivers(before, was, str[..], rest, j, n, atEnd);
      }
    }

    /** The next chunk of `rest`, of which j characters have been read before. */
    method NextChunk(ghost rest: seq<char>, ghost j: nat) returns (count: nat)
      requires Valid() && j <= |rest| && Rest() == rest[j..]
      modifies this`pos, tbuf
      ensures Valid() && pos == old(pos) + count && count <= tbuf.Length && j + count <= |rest|
      ensures tbuf[..count] == rest[j..j + count] && Rest() == rest[j + count..]
      ensures count == 0 <==> j == |rest|
    {
      count := Fread();
      assert rest[j..][..count] == rest[j..j + count];
    }

    /** The outer loop of vm_file_fgets: chunk after chunk until a character ends the string or
        the file ends. `fpos` is how far the last chunk goes beyond that character, negative. */
    method FillString(str: array<char>, nchar: nat, ghost before: seq<char>, ghost rest: seq<char>)
      returns (stopped: bool, j: nat, fpos: int)
      requires Valid() && str != tbuf && 1 <= nchar <= str.Length == |before| && Rest() == rest
      requires Partial(before, str[..], rest, 0, nchar)
      modifies this`pos, tbuf, str
      ensures Valid() && fpos <= 0
      ensures if stopped then Stopped(before, str[..], rest, j, nchar) && pos + fpos == old(pos) + j + 1
              else j == |rest| && Partial(before, str[..], rest, j, nchar) && pos == old(pos) + j
    {
      j, fpos, stopped := 0, 0, false;
      var rdchar: nat := NextChunk(rest, 0);
      while rdchar != 0
        invariant Valid() && rdchar <= tbuf.Length && pos == old(pos) + j + rdchar
        invariant j + rdchar <= |rest| && tbuf[..rdchar] == rest[j..j + rdchar]
        invariant rdchar == 0 ==> j == |rest|
        invariant Partial(before, str[..], rest, j, nchar)
        invariant Rest() == rest[j + rdchar..]
        decreases |rest| - j
      {
        var i: nat;
        i, j := CopyChunk(str, j, nchar, rdchar, before, rest);
        if i < rdchar {
          i := i + 1;
          return true, j, i - rdchar;
        }
        rdchar := NextChunk(rest, j);
      }
    }

    /** What vm_file_fgets does when the file ended before the string did. */
    method EndText(str: array<char>, j: nat, n: nat, ghost before: seq<char>, ghost rest: seq<char>)
      returns (ok: bool)
      requires 1 <= n <= str.Length == |before| && j == |rest| && Partial(before, str[..], rest, j, n)
      modifies str
      ensures Taken(rest, n) == j && Delivered(before, str[..], rest, n, Feof(), ok)
    {
      ghost var was := str[..];
      ok := false;
      if j != 0 && Feof() {
        ok := true;
        if j < n - 1 {
          str[j + 1] := '\0';
        }
      }
      EndDelivers(before, was, str[..], rest, n, Feof(), ok);
    }

    /** vm_file_fgets, for every way the system may cut the file into chunks: the string gets
        the line a one-character-at-a-time reader would take, and the position ends up just
        behind it. */
    method Fgets(str: array<char>, nchar: nat) returns (ok: bool)
      requires Valid() && str != tbuf && 1 <= nchar <= str.Length
      modifies this`pos, tbuf, str
      ensures Valid()
      ensures pos == old(pos) + Taken(old(Rest()), nchar)
      ensures Delivered(old(str[..]), str[..], old(Rest()), nchar, Feof(), ok)
    {
      ghost var rest, before := Rest(), str[..];
      str[0], str[nchar - 1] := '\0', '\0';
      var stopped, j, fpos := FillString(str, nchar, before, rest);
      if stopped {
        EndLine(str, j, nchar, before, rest);
        if fpos != 0 {
          SeekCurrent(fpos);
        }
        return true;
      }
      ok := EndText(str, j, nchar, before, rest);
    }

    /** What a caller does to read on: vm_file_fgets once for each limit. The pieces stored make
        up what has been read, and if the recorded length is not beyond the end none of the
        calls that stored something failed, so as many calls succeeded at most as there were
        characters. */
    method ReadLines(str: array<char>, sizes: seq<nat>) returns (pieces: seq<seq<char>>, oks: nat)
      requires Valid() && str != tbuf && Positive(sizes)
      requires forall i :: 0 <= i < |sizes| ==> sizes[i] <= str.Length
      modifies this`pos, tbuf, str
      ensures Valid()
      ensures pieces == Segments(old(Rest()), sizes) && Rest() == Remainder(old(Rest()), sizes)
      ensures Flatten(pieces) + Rest() == old(Rest())
      ensures oks == Succeeding(old(Rest()), sizes, size - old(pos))
      ensures size <= |contents| ==> oks == Successes(pieces) && oks <= |old(Rest())| - |Rest()|
      ensures |sizes| >= |old(Rest())| ==> Rest() == []
    {
      ghost var rest, left := Rest(), size - pos;
      pieces, oks := ReadPieces(str, sizes, rest);
      ReadsPartition(rest, sizes);
      ReadsReachTheEnd(rest, sizes);
      if size <= |contents| {
        AllSucceed(rest, sizes, left);
      }
    }

    /** The calls themselves, on a file that holds `rest` from the position on. */
    method ReadPieces(str: array<char>, sizes: seq<nat>, ghost rest: seq<char>)
      returns (pieces: seq<seq<char>>, oks: nat)
      requires Valid() && str != tbuf && Positive(sizes) && rest == Rest()
      requires forall i :: 0 <= i < |sizes| ==> sizes[i] <= str.Length
      modifies this`pos, tbuf, str
      ensures Valid() && pieces == Segments(rest, sizes) && Rest() == Remainder(rest, sizes)
      ensures oks == Succeeding(rest, sizes, size - old(pos))
      decreases |sizes|
    {
      if sizes == [] {
        return [], 0;
      }
      ghost var left := size - pos;
      ghost var tail, later := PiecesStep(rest, sizes, left);
      var piece, ok := ReadPiece(str, sizes[0], rest, tail);
      pieces, oks := ReadPieces(str, sizes[1..], tail);
      pieces, oks := [piece] + pieces, oks + if ok then 1 else 0;
    }

    method ReadPiece(str: array<char>, n: nat, ghost rest: seq<char>, ghost tail: seq<char>)
      returns (piece: seq<char>, ok: bool)
      requires Valid() && str != tbuf && rest == Rest() && 1 <= n <= str.Length
      requires tail == rest[Taken(rest, n)..]
      modifies this`pos, tbuf, str
      ensures Valid() && piece == rest[..Taken(rest, n)] && Rest() == tail
      ensures pos == old(pos) + Taken(rest, n) && (ok <==> Succeeds(rest, n, size - old(pos)))
    {
      var start := pos;
      ok := Fgets(str, n);
      piece := str[..pos - start];
    }

    /** gettoken on a fresh line in tbuf: finds the first token, puts a null character behind
        it and remembers the character that stood there. */
    method GetToken(ghost line: seq<char>) returns (frompos: nat, skipped: nat, found: bool)
      requires Valid() && IsCString(tbuf, |line|) && tbuf[..|line|] == line
      modifies this`lnpos, this`lnchar, tbuf
      ensures Valid()
      ensures lnpos == skipped <= |line| && frompos <= skipped
      ensures tbuf[..] == old(tbuf[..])[skipped := '\0'] && lnchar == old(tbuf[..])[skipped]
      ensures found <==> T.HasToken(line)
      ensures found ==> frompos < skipped && T.Look(line) == (T.Token(tbuf[frompos..skipped]), skipped)
    {
      ghost var whole := tbuf[..];
      skipped, frompos, lnpos := 0, 0, 0;
      lnchar := tbuf[lnpos];
      tbuf[lnpos] := lnchar;
      assert tbuf[..] == whole && whole[..|line|] == line;
      assert forall i :: 0 <= i < |line| ==> whole[i] == line[i];
      while tbuf[lnpos] == ' ' || tbuf[lnpos] == '\t'
        invariant tbuf[..] == whole && skipped == frompos == lnpos <= |line|
        invariant forall i :: 0 <= i < lnpos ==> T.IsBlank(line[i])
        decreases |line| - lnpos
      {
        assert tbuf[lnpos] == whole[lnpos] == line[lnpos];
        skipped := skipped + 1;
        frompos := frompos + 1;
        lnpos := lnpos + 1;
      }
      assert frompos < |line| ==> tbuf[lnpos] == whole[lnpos] == line[lnpos];
      while
        tbuf[lnpos] != ' ' && tbuf[lnpos] != '\0' && tbuf[lnpos] != ',' && tbuf[lnpos] != '\n' && tbuf[lnpos] != '\r'
        invariant tbuf[..] == whole && frompos <= skipped == lnpos <= |line|
        invariant forall i :: frompos <= i < lnpos ==> !T.IsDelimiter(line[i])
        decreases |line| - lnpos
      {
        assert tbuf[lnpos] == whole[lnpos] == line[lnpos];
        skipped := skipped + 1;
        lnpos := lnpos + 1;
      }
      assert skipped < |line| ==> whole[lnpos] == line[lnpos] != '\0';
      T.LookIs(line, frompos, skipped);
      lnchar := tbuf[lnpos];
      tbuf[lnpos] := '\0';
      assert tbuf[..] == whole[skipped := '\0'];
      assert forall i :: frompos <= i < skipped ==> tbuf[i] == line[i];
      assert tbuf[frompos..skipped] == line[frompos..skipped];
      found := tbuf[frompos] != '\0';
    }

    /** Takes the next line into tbuf, as far as it is shown there. */
    method TakeLine(s: array<char>, ghost line: seq<char>) returns (ws: bool)
      requires Valid() && T.Terminated(Rest()) && s != tbuf && s.Length == T.MAX_LINE
      requires line == T.NextLine(Rest())
      modifies this`pos, tbuf, s
      ensures Valid() && pos == old(pos) + |line| && (ws <==> line != [])
      ensures IsCString(tbuf, |T.Shown(line)|) && tbuf[..|T.Shown(line)|] == T.Shown(line)
    {
      ghost var rest := Rest();
      ws := Fgets(s, T.MAX_LINE);
      LineInBuffer(s[..], rest, ws);
      s[T.MAX_LINE - 1] := '\0';
      StrCpy(tbuf, s, |T.Shown(line)|);
    }

    /** One round of the loop in getfiletoken_cvt: takes a line and looks for a token in it. */
    method TokenInNextLine(s: array<char>, ghost line: seq<char>, ghost how: T.Search)
      returns (gobackcounter: nat, frompos: nat, skipbytes: nat, found: bool)
      requires Valid() && T.Terminated(Rest()) && s != tbuf && s.Length == T.MAX_LINE
      requires line == T.NextLine(Rest()) && T.IsByLine(how)
      modifies this`pos, this`lnpos, this`lnchar, tbuf, s
      ensures Valid() && pos == old(pos) + |line|
      ensures found <==> how.look(line).0.Token?
      ensures found ==>
                && line != [] && TokenInBuffer(frompos) && skipbytes <= gobackcounter
                && how.look(line) == (T.Token(tbuf[frompos..lnpos]), |line| - gobackcounter + skipbytes)
    {
      ghost var shown := T.Shown(line);
      gobackcounter, frompos, skipbytes, found := 0, 0, 0, false;
      var ws := TakeLine(s, line);
      if ws {
        gobackcounter := StrLen(tbuf, |shown|);
        frompos, skipbytes, found := GetToken(shown);
      }
      assert T.LooksByLine(how, line);
    }

    /** At the end of the file a round changes nothing but the buffers. If the recorded length is
        further on the loop does not end there. */
    method RoundAtEnd(s: array<char>)
      requires Valid() && pos == |contents| && s != tbuf && s.Length == T.MAX_LINE
      modifies this`pos, this`lnpos, this`lnchar, tbuf, s
      ensures Valid() && pos == old(pos) && (Feof() <==> size <= |contents|)
    {
      T.ByLineIs();
      var _, _, _, found := TokenInNextLine(s, [], T.ByLine());
    }

    /** gettoken has left a token in tbuf. */
    ghost predicate TokenInBuffer(frompos: nat)
      reads this`lnpos, tbuf
    {
      frompos < lnpos < tbuf.Length && tbuf[lnpos] == '\0'
    }

    /** The loop in getfiletoken_cvt, on a file that holds `text` from the position on: the
        first d characters are lines without a token, and `line` is the one that ends it. */
    method FindToken(ghost text: seq<char>, ghost how: T.Search)
      returns (gobackcounter: nat, frompos: nat, skipbytes: nat, found: bool, ghost d: nat, ghost line: seq<char>)
      requires Valid() && text == Rest() && T.Terminated(text) && T.IsByLine(how)
      requires size <= |contents| || T.NextBy(how, text, |text|).0.Token?
      modifies this`pos, this`lnpos, this`lnchar, tbuf
      ensures Valid() && d <= |text| && line == T.NextLine(text[d..]) && T.Passed(how, text, d, size - old(pos))
      ensures pos == old(pos) + d + |line|
      ensures found <==> how.look(line).0.Token?
      ensures found ==>
                && line != [] && TokenInBuffer(frompos) && skipbytes <= gobackcounter
                && how.look(line) == (T.Token(tbuf[frompos..lnpos]), |line| - gobackcounter + skipbytes)
      ensures !found ==> Feof()
    {
      ghost var start := pos;
      var s := new char[T.MAX_LINE];
      d := 0;
      while true
        invariant Valid() && d == pos - start
        invariant T.Passed(how, text, d, size - start)
        decreases |contents| - pos
      {
        assert Rest() == text[d..];
        T.TerminatedFrom(text, d);
        line := T.NextLine(text[d..]);
        gobackcounter, frompos, skipbytes, found := TokenInNextLine(s, line, how);
        if found || Feof() {
          return;
        }
        T.GoesOn(how, text, d, size - start, line);
        d := d + |line|;
      }
    }

    /** getfiletoken_cvt without conversion, on a file that holds `text` from the position on:
        the next token of the text, in tbuf from `frompos` on, with the position just behind
        it. If the recorded length is beyond the end there must be a token, or the search does
        not end. */
    method GetFileToken(ghost text: seq<char>, ghost how: T.Search)
      returns (frompos: nat, found: bool, ghost next: (T.Token, nat))
      requires Valid() && text == Rest() && T.Terminated(text) && T.IsByLine(how)
      requires size <= |contents| || T.NextBy(how, text, |text|).0.Token?
      modifies this`pos, this`lnpos, this`lnchar, tbuf
      ensures Valid() && (found ==> TokenInBuffer(frompos))
      ensures next == T.NextBy(how, text, size - old(pos))
      ensures (found <==> next.0.Token?) && pos == old(pos) + next.1
      ensures found ==> tbuf[frompos..lnpos] == next.0.text
    {
      ghost var d: nat, line, left := 0, [], size - pos;
      T.ByLineIsSound(how);
      var gobackcounter: nat, skipbytes: nat;
      gobackcounter, frompos, skipbytes, found, d, line := FindToken(text, how);
      assert T.CutsByLine(how, text[d..]);
      T.SearchIsOver(how, text, d, left, line);
      next := T.NextBy(how, text, left);
      if found {
        gobackcounter := gobackcounter - skipbytes;
      } else {
        gobackcounter := 0;
      }
      if gobackcounter > 0 {
        SeekCurrent(0 - gobackcounter);
      }
    }

    /** One call of getfiletoken_cvt, when `all` is what should come out in the end. */
    method OneToken(ghost text: seq<char>, ghost how: T.Search, ghost all: seq<seq<char>>)
      returns (found: bool, token: seq<char>, ghost rest: seq<char>, ghost others: seq<seq<char>>)
      requires Valid() && size <= |contents| && text == Rest() && T.Terminated(text) && T.IsByLine(how)
      requires all == T.TokensBy(how, text, size - pos)
      modifies this`pos, this`lnpos, this`lnchar, tbuf
      ensures Valid() && rest == Rest() && T.Terminated(rest)
      ensures others == T.TokensBy(how, rest, size - pos)
      ensures if found then all == [token] + others && pos > old(pos) else all == []
    {
      ghost var left := size - pos;
      ghost var first := T.NextBy(how, text, left);
      T.ByLineIsSound(how);
      T.FirstAndOthers(how, text, left, first);
      rest := text[first.1..];
      var frompos;
      ghost var next;
      frompos, found, next := GetFileToken(text, how);
      token := if found then tbuf[frompos..lnpos] else [];
      assert Rest() == rest;
      others := T.TokensBy(how, rest, size - pos);
    }

    /** getfiletoken_cvt until it finds none. */
    method ReadTokensBy(ghost text: seq<char>, ghost how: T.Search, ghost all: seq<seq<char>>)
      returns (tokens: seq<seq<char>>)
      requires Valid() && size <= |contents| && text == Rest() && T.Terminated(text) && T.IsByLine(how)
      requires all == T.TokensBy(how, text, size - pos)
      modifies this`pos, this`lnpos, this`lnchar, tbuf
      ensures Valid() && tokens == all
      decreases |contents| - pos
    {
      var found, token;
      ghost var rest, others;
      found, token, rest, others := OneToken(text, how, all);
      tokens := [];
      if found {
        tokens := ReadTokensBy(rest, how, others);
        tokens := [token] + tokens;
      }
    }

    /** What a caller does to read all tokens, when the recorded length is not beyond the end. */
    method ReadTokens() returns (tokens: seq<seq<char>>)
      requires Valid() && size <= |contents| && T.Terminated(Rest())
      modifies this`pos, this`lnpos, this`lnchar, tbuf
      ensures Valid() && tokens == T.TokensUpTo(old(Rest()), size - old(pos))
    {
      T.ByLineIs();
      tokens := ReadTokensBy(Rest(), T.ByLine(), T.TokensUpTo(Rest(), size - pos));
    }

    /** vm_file_fwrite; the system may take fewer bytes than it is given. */
    method Fwrite(buf: array<char>, n: nat) returns (written: nat)
      requires Valid() && n <= buf.Length
      modifies this`contents, this`pos
      ensures Valid() && written <= n
      ensures (contents, pos) == (Overwrite(old(contents), old(pos), buf[..written]), old(pos) + written)
    {
      written :| 0 <= written <= n;
      contents := Overwrite(contents, pos, buf[..written]);
      pos := pos + written;
    }

    lemma NothingWritten()
      requires Valid()
      ensures Overwrite(contents, pos, []) == contents
    {
    }

    /** vm_file_fputs on a disk file; `memory` is the outcome of the allocation, which a binary
        file does not need. Some prefix of what should be written is, and the answer is 1
        exactly if it is all. */
    method Fputs(str: array<char>, ghost len: nat, memory: bool) returns (rtv: int, ghost written: nat)
      requires Valid() && IsCString(str, len)
      modifies this`contents, this`pos
      ensures Valid() && (rtv == 1 || rtv == -1)
      ensures var out := if binary then str[..len] else Expand(str[..len]);
              && written <= |out| && pos == old(pos) + written
              && contents == Overwrite(old(contents), old(pos), out[..written])
              && (rtv == 1 <==> (binary || memory) && written == |out|)
      ensures rtv == 1 && !binary ==> (contents, pos) == PutThere((old(contents), old(pos)), str[..len])
    {
      rtv, written := -1, 0;
      ghost var text := str[..len];
      NothingWritten();
      assert Expand(text)[..0] == [];
      var n := StrLen(str, len);
      if binary {
        var w := Fwrite(str, n);
        written := w;
        assert str[..len] == text && str[..w] == text[..w];
        rtv := if w == n then 1 else -1;
      } else if memory {
        rtv, written := PutTranslated(str, len, n);
        assert rtv == 1 ==> Expand(text)[..written] == Expand(text);
      }
    }

    /** The text part of vm_file_fputs: translates into a buffer of its own and writes that. */
    method PutTranslated(str: array<char>, ghost len: nat, length: nat) returns (rtv: int, ghost written: nat)
      requires Valid() && IsCString(str, len) && length == len
      modifies this`contents, this`pos
      ensures Valid() && (rtv == 1 || rtv == -1)
      ensures var out := Expand(str[..len]);
              && written <= |out| && pos == old(pos) + written && (rtv == 1 <==> written == |out|)
              && contents == Overwrite(old(contents), old(pos), out[..written])
    {
      var crs := CountNewlines(str, len);
      ExpandLength(str[..len]);
      var ostr := new char[length + (crs + 1) * 2];
      ExtCpy(ostr, str, len);
      ghost var out := ostr[..|Expand(str[..len])|];
      var n := StrLen(ostr, |out|);
      var w := Fwrite(ostr, n);
      written := w;
      assert ostr[..n] == out && ostr[..w] == out[..w];
      rtv := if w == n then 1 else -1;
    }
  }

  lemma {:induction false} PiecesStep(rest: seq<char>, sizes: seq<nat>, left: int)
    returns (tail: seq<char>, later: int)
    requires sizes != [] && Positive(sizes)
    ensures var k := Taken(rest, sizes[0]);
            && tail == rest[k..] && later == left - k
            && Segments(rest, sizes) == [rest[..k]] + Segments(tail, sizes[1..])
    ensures Positive(sizes[1..])
    ensures Remainder(rest, sizes) == Remainder(tail, sizes[1..])
    ensures Succeeding(rest, sizes, left) ==
            Succeeding(tail, sizes[1..], later) + if Succeeds(rest, sizes[0], left) then 1 else 0
  {
    var k := Taken(rest, sizes[0]);
    tail, later := rest[k..], left - k;
  }

  // ---- the string while it is being filled ----

  /** j characters of the rest are in, none of them a stop, and the other slots are as the
      caller left them except for the null characters vm_file_fgets begins with. */
  ghost predicate Partial(before: seq<char>, now: seq<char>, rest: seq<char>, j: nat, n: nat)
    requires 1 <= n <= |before|
  {
    && |now| == |before| && j < n && j <= |rest|
    && NoStop(rest[..j]) && now[..j] == rest[..j]
    && now[n - 1] == '\0' && (j == 0 ==> now[0] == '\0')
    && now[n..] == before[n..]
    && forall t :: j <= t < n - 1 && t > 0 ==> now[t] == before[t]
  }

  /** As before, with the character at j stored too, which is a stop or the last that fits. */
  ghost predicate Stopped(before: seq<char>, now: seq<char>, rest: seq<char>, j: nat, n: nat)
    requires 1 <= n <= |before|
  {
    && |now| == |before| && j < n && j < |rest|
    && NoStop(rest[..j]) && now[..j + 1] == rest[..j + 1]
    && (IsStop(rest[j]) || j == n - 1)
    && now[n..] == before[n..]
  }

  lemma {:induction false} StopHere(before: seq<char>, was: seq<char>, rest: seq<char>, j: nat, n: nat)
    requires 1 <= n <= |before| && Partial(before, was, rest, j, n) && j < |rest|
    requires IsStop(rest[j]) || j == n - 1
    ensures Stopped(before, was[j := rest[j]], rest, j, n)
  {
    assert was[j := rest[j]][..j + 1] == was[..j] + [rest[j]];
  }

  lemma {:induction false} GoOn(before: seq<char>, was: seq<char>, rest: seq<char>, j: nat, n: nat)
    requires 1 <= n <= |before| && Partial(before, was, rest, j, n) && j < |rest|
    requires !IsStop(rest[j]) && j < n - 1
    ensures Partial(before, was[j := rest[j]], rest, j + 1, n)
  {
    assert was[j := rest[j]][..j + 1] == was[..j] + [rest[j]];
    assert rest[..j + 1] == rest[..j] + [rest[j]];
  }

  lemma {:induction false} StoppedDelivers(
      before: seq<char>, was: seq<char>, now: seq<char>, rest: seq<char>, j: nat, n: nat, atEnd: bool)
    requires 1 <= n <= |before| && Stopped(before, was, rest, j, n)
    requires now == if was[j] == '\n' && j < n - 1 then was[j + 1 := '\0'] else was
    ensures Taken(rest, n) == j + 1 && Delivered(before, now, rest, n, atEnd, true)
  {
    LineLenIff(rest, n, j + 1);
    assert was[j] == was[..j + 1][j];
    assert now[..j + 1] == was[..j + 1];
    assert now[n..] == was[n..];
  }

  lemma {:induction false} EndDelivers(
      before: seq<char>, was: seq<char>, now: seq<char>, rest: seq<char>, n: nat, atEnd: bool, ok: bool)
    requires 1 <= n <= |before| && Partial(before, was, rest, |rest|, n)
    requires ok <==> rest != [] && atEnd
    requires now == if ok && |rest| < n - 1 then was[|rest| + 1 := '\0'] else was
    ensures Taken(rest, n) == |rest| && Delivered(before, now, rest, n, atEnd, ok)
  {
    LineLenIff(rest, n, |rest|);
    assert rest[..|rest|] == rest;
    assert now[..|rest|] == was[..|rest|];
    assert now[n..] == was[n..];
  }

  /** A line as vm_file_fgets leaves it in a buffer of the maximum size, once the last slot of
      the buffer is cleared. */
  lemma {:induction false} LineInBuffer(now: seq<char>, rest: seq<char>, ok: bool)
    requires |now| == T.MAX_LINE && T.Terminated(rest)
    requires exists before, atEnd :: |before| == |now| && Delivered(before, now, rest, T.MAX_LINE, atEnd, ok)
    ensures ok <==> rest != []
    ensures var shown, cleared := T.Shown(T.NextLine(rest)), now[T.MAX_LINE - 1 := '\0'];
            && |shown| < |now| && cleared[|shown|] == '\0' && cleared[..|shown|] == shown
            && forall i :: 0 <= i < |shown| ==> cleared[i] != '\0'
  {
    var line, k := T.NextLine(rest), Taken(rest, T.MAX_LINE);
    assert rest != [] ==> T.StopAt(rest, |rest| - 1);
    LineLenIff(rest, T.MAX_LINE, k);
    forall i | 0 <= i < k ensures now[i] == line[i] == rest[i] {
      assert now[i] == now[..k][i];
    }
    forall i | 0 <= i && i + 1 < k ensures line[i] != '\0' {
      assert rest[i] == rest[..k - 1][i];
    }
  }
}
