/** The text translation of output: a carriage return goes in front of every newline. */
module NewLines {
  function Newlines(s: seq<char>): nat {
    if s == [] then 0 else (if s[0] == '\n' then 1 else 0) + Newlines(s[1..])
  }

  function Expand(s: seq<char>): seq<char> {
    if s == [] then []
    else (if s[0] == '\n' then ['\r', '\n'] else [s[0]]) + Expand(s[1..])
  }

  /** Reading translated text: one carriage return in front of each newline is dropped. */
  function Collapse(t: seq<char>): seq<char> {
    if t == [] then []
    else if t[0] == '\r' && |t| > 1 && t[1] == '\n' then ['\n'] + Collapse(t[2..])
    else [t[0]] + Collapse(t[1..])
  }

  /** The translation adds one character for each newline, ... */
  lemma {:induction false} ExpandLength(s: seq<char>)
    ensures |Expand(s)| == |s| + Newlines(s)
  {
    if s != [] {
      ExpandLength(s[1..]);
    }
  }

  /** ... can be done piece by piece, ... */
  lemma {:induction false} ExpandConcat(a: seq<char>, b: seq<char>)
    ensures Expand(a + b) == Expand(a) + Expand(b)
    ensures Newlines(a + b) == Newlines(a) + Newlines(b)
  {
    if a == [] {
      assert a + b == b;
    } else {
      assert (a + b)[1..] == a[1..] + b;
      ExpandConcat(a[1..], b);
    }
  }

  /** ... and can be undone, even if the text has carriage returns of its own. */
  lemma {:induction false} CollapseExpand(s: seq<char>)
    ensures Collapse(Expand(s)) == s
  {
    if s != [] {
      var rest := Expand(s[1..]);
      CollapseExpand(s[1..]);
      if s[0] == '\n' {
        assert Expand(s)[2..] == rest;
      } else {
        assert Expand(s)[1..] == rest;
        if s[0] == '\r' && |s| > 1 {
          assert rest[0] == if s[1] == '\n' then '\r' else s[1];
        }
      }
      assert s == [s[0]] + s[1..];
    }
  }

  /** Different texts are written differently. */
  lemma {:induction false} ExpandInjective(s: seq<char>, t: seq<char>)
    requires Expand(s) == Expand(t)
    ensures s == t
  {
    CollapseExpand(s);
    CollapseExpand(t);
  }

  /** A newline in the translation always has a carriage return before it. */
  lemma {:induction false} NewlinesArePreceded(s: seq<char>, i: nat)
    requires i < |Expand(s)| && Expand(s)[i] == '\n'
    ensures i > 0 && Expand(s)[i - 1] == '\r'
  {
    var w := if s[0] == '\n' then 2 else 1;
    if i >= w {
      NewlinesArePreceded(s[1..], i - w);
    }
  }
}
