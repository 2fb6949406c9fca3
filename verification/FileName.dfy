/** File names put together from and taken apart into path, base name and suffix. */
module FileName {
  import opened CStrings

  const SLASH := '/'

  // ---- the parts of a name ----

  /** Where the backward scans of vm_file_getpath and vm_file_getsuffix stop: one before the
      last such character, if that is not at the very front. */
  function ScanBack(name: string, c: char): (k: nat)
    ensures k <= |name|
  {
    if LastAt(name, c) >= 1 then LastAt(name, c) - 1 else 0
  }

  function PathOf(name: string): string {
    if ScanBack(name, SLASH) > 0 then name[..LastAt(name, SLASH)] else ""
  }

  function SuffixOf(name: string): string {
    if ScanBack(name, '.') > 0 then name[LastAt(name, '.') + 1..] else ""
  }

  /** The last component of a name starts behind its last slash. */
  function BaseStart(name: string): (k: nat)
    ensures k <= |name|
  {
    LastAt(name, SLASH) + 1
  }

  predicate DotInLastComponent(name: string) {
    BaseStart(name) <= FirstAt(name, '.', 0)
  }

  /** The number of characters vm_file_getbasename counts, from the last slash or the front to
      the first dot or the end. */
  function Counted(name: string): int {
    FirstAt(name, '.', 0) - if LastAt(name, SLASH) < 0 then 0 else LastAt(name, SLASH)
  }

  /** That number is negative exactly if there is a dot in front of the last slash. */
  lemma {:induction false} CountedIsNegativeIff(name: string)
    ensures Counted(name) < 0 <==> !DotInLastComponent(name)
  {
    assert FirstAt(name, '.', 0) != LastAt(name, SLASH) || name == "";
  }

  /** Of "a.b/c" it is -2. */
  lemma DotInFrontOfSlash()
    ensures Counted("a.b/c") == -2 && !DotInLastComponent("a.b/c")
  {
    assert "a.b/c"[1] == '.' && "a.b/c"[3] == '/' && "a.b/c"[4] == 'c';
  }

  function BaseOf(name: string): string
    requires DotInLastComponent(name)
  {
    name[BaseStart(name)..FirstAt(name, '.', 0)]
  }

  function Truncated(base: string, nchars: nat): string
    requires nchars > 0 || base == ""
  {
    if |base| > nchars then base[..nchars - 1] else base
  }

  /** How many of n characters fit into nchars, when one is copied in any case. */
  function Fitting(n: nat, nchars: nat): nat {
    if n == 0 || n <= nchars then n else if nchars == 0 then 1 else nchars
  }

  // ---- how much the splitters write ----

  /** How many slots of their buffers the three functions write to. */
  function PathSlots(name: string): nat {
    |PathOf(name)| + 1
  }

  function BaseSlots(name: string, nchars: nat): nat
    requires DotInLastComponent(name) && (nchars > 0 || BaseOf(name) == "")
  {
    |Truncated(BaseOf(name), nchars)| + 1
  }

  function SuffixSlots(name: string, nchars: nat): nat {
    Fitting(|SuffixOf(name)|, nchars) + 1
  }

  /** They stay within nchars slots exactly if the path is shorter than that, the base name is
      not just as long, and the suffix is shorter. */
  lemma {:induction false} SplittersStayInIff(name: string, nchars: nat)
    ensures PathSlots(name) <= nchars <==> |PathOf(name)| < nchars
    ensures DotInLastComponent(name) && nchars > 0 ==>
              (BaseSlots(name, nchars) <= nchars <==> |BaseOf(name)| != nchars)
    ensures SuffixSlots(name, nchars) <= nchars <==> |SuffixOf(name)| < nchars
  {
  }

  /** The base name comes back whole exactly if it has at most nchars characters, and otherwise
      one less than that; the suffix exactly if it has at most nchars, or one at all, and
      otherwise nchars of it, or one. */
  lemma {:induction false} WholeIff(name: string, nchars: nat)
    ensures DotInLastComponent(name) && nchars > 0 ==>
              && (Truncated(BaseOf(name), nchars) == BaseOf(name) <==> |BaseOf(name)| <= nchars)
              && (|BaseOf(name)| > nchars ==> Truncated(BaseOf(name), nchars) == BaseOf(name)[..nchars - 1])
    ensures var n, k := |SuffixOf(name)|, Fitting(|SuffixOf(name)|, nchars);
            && (k == n <==> n <= nchars || n == 1)
            && (k < n ==> k == if nchars > 0 then nchars else 1)
  {
  }

  /** For "ab/ab.ab" and 2 all three write a third slot. */
  lemma SplittersWriteOneMore()
    ensures var name := "ab/ab.ab";
            && PathSlots(name) == 3 && DotInLastComponent(name) && BaseSlots(name, 2) == 3 && SuffixSlots(name, 2) == 3
  {
    var name := "ab/ab.ab";
    assert name[2] == '/' && name[5] == '.' && name[6] == 'a' && name[7] == 'b';
    assert LastAt(name, SLASH) == 2 && LastAt(name, '.') == 5 && FirstAt(name, '.', 0) == 5;
  }

  // ---- putting a name together ----

  datatype Part = Absent | Given(text: string)

  function Size(p: Part): nat {
    if p.Given? then |p.text| else 0
  }

  /** The buffer while a name is put together. `room` is the counter nchars, which is this
      number modulo 2^32; it falls below zero because every part takes off the length of all
      that is in the buffer. With a gap the place of the separator holds a null character. */
  datatype Name = Name(text: string, gap: bool, room: int)

  function Offs(s: Name): nat {
    |s.text| + if s.gap then 1 else 0
  }

  /** (Ipp32u) */
  function Unsigned(n: int): nat {
    n % 0x1_0000_0000
  }

  /** The counter is not zero. */
  predicate HasRoom(n: int) {
    Unsigned(n) != 0
  }

  /** ADDPARM */
  function AddPart(s: Name, a: string): Name {
    if Unsigned(s.room) > |a| then
      var text := s.text + a;
      var room := s.room - |text|;
      if HasRoom(room) then Name(text + [SLASH], false, room - 1) else Name(text, true, room - 1)
    else s
  }

  predicate EndsInSlash(s: Name) {
    !s.gap && s.text != "" && s.text[|s.text| - 1] == SLASH
  }

  function Dotted(s: Name): Name {
    if Offs(s) == 0 then Name(".", false, s.room - 1)
    else if EndsInSlash(s) then s.(text := s.text[..|s.text| - 1] + ".")
    else s
  }

  function WithPath(path: Part, n: nat): Name {
    if path.Given? && |path.text| < n then AddPart(Name("", false, n), path.text) else Name("", false, n)
  }

  function WithBase(s: Name, base: Part): Name {
    if HasRoom(s.room) && base.Given? then AddPart(s, base.text) else s
  }

  function WithSuffix(s: Name, suffix: Part): Name {
    if HasRoom(s.room) && suffix.Given? then AddPart(Dotted(s), suffix.text) else s
  }

  function Parts(path: Part, base: Part, suffix: Part, n: nat): Name {
    WithSuffix(WithBase(WithPath(path, n), base), suffix)
  }

  function Stripped(s: Name): string {
    if EndsInSlash(s) then s.text[..|s.text| - 1] else s.text
  }

  /** What vm_file_makefilename leaves in the buffer. */
  function Made(path: Part, base: Part, suffix: Part, n: nat): string {
    Stripped(Parts(path, base, suffix, n))
  }

  function Joined(path: string, base: string, suffix: string): string {
    path + [SLASH] + base + ['.'] + suffix
  }

  /** nchars is an Ipp32s, and an Ipp32u can count all the characters. */
  predicate Countable(path: Part, base: Part, suffix: Part, n: nat) {
    Size(path) + Size(base) + Size(suffix) + 3 < 0x1_0000_0000 && n < 0x8000_0000
  }

  function Max(a: nat, b: nat): nat {
    if a < b then b else a
  }

  /** How many slots of the buffer a use of ADDPARM writes to. */
  function PartExtent(s: Name, a: Part): nat {
    if a.Given? && Unsigned(s.room) > |a.text| then |s.text| + |a.text| + 2 else 0
  }

  function SuffixExtent(s: Name, a: Part): nat {
    if HasRoom(s.room) && a.Given? then Max(|Dotted(s).text| + 1, PartExtent(Dotted(s), a)) else 0
  }

  function PathExtent(path: Part, n: nat): nat {
    if path.Given? && |path.text| < n then PartExtent(Name("", false, n), path) else 0
  }

  function BaseExtent(s: Name, base: Part): nat {
    if HasRoom(s.room) then PartExtent(s, base) else 0
  }

  function FrontExtent(path: Part, base: Part, n: nat): nat {
    Max(1, Max(PathExtent(path, n), BaseExtent(WithPath(path, n), base)))
  }

  /** How many slots of the buffer vm_file_makefilename writes to. */
  function Extent(path: Part, base: Part, suffix: Part, n: nat): (e: nat)
    ensures e > 0
  {
    Max(FrontExtent(path, base, n), SuffixExtent(WithBase(WithPath(path, n), base), suffix))
  }

  lemma {:induction false} FrontIsWritten(path: Part, base: Part, n: nat)
    ensures |WithPath(path, n).text| < Max(1, PathExtent(path, n))
    ensures |WithBase(WithPath(path, n), base).text| < FrontExtent(path, base, n)
  {
  }

  /** Nothing is put into the buffer, and the code looks at the character in front of it,
      exactly if path and base are absent or too long and there is no suffix to put a dot in
      front of. */
  lemma {:induction false} NothingMadeIff(path: Part, base: Part, suffix: Part, n: nat)
    requires Countable(path, base, suffix, n)
    ensures Offs(Parts(path, base, suffix, n)) == 0 <==>
              && (path.Absent? || |path.text| >= n)
              && (base.Absent? || |base.text| >= n)
              && (suffix.Absent? || n == 0)
  {
  }

  /** The room left after path and base: the length of the path comes off twice. */
  function RoomAfterBase(path: string, base: string, n: nat): int {
    n - 2 * |path| - |base| - 3
  }

  lemma {:induction false} PathThenBase(path: string, base: string, n: nat)
    requires Countable(Given(path), Given(base), Absent, n)
    requires |path| + |base| + 2 <= n
    ensures var s := WithBase(WithPath(Given(path), n), Given(base));
            && s.room == RoomAfterBase(path, base, n) && s.gap == (s.room == -1)
            && s.text == if s.gap then path + [SLASH] + base else path + [SLASH] + base + [SLASH]
  {
    assert "" + path == path;
  }

  /** The name is put together as path/base.suffix exactly if path and base fit and the room
      left after both is greater than the suffix as an unsigned number and not -1. Below 0 that
      number is huge; at -1 the dot is missing, and from 0 to the length of the suffix the
      suffix is. */
  lemma {:induction false} MadeIsJoinedIff(path: string, base: string, suffix: string, n: nat)
    requires Countable(Given(path), Given(base), Given(suffix), n)
    ensures var room := RoomAfterBase(path, base, n);
            Made(Given(path), Given(base), Given(suffix), n) == Joined(path, base, suffix) <==>
              |path| + |base| + 2 <= n && room != -1 && Unsigned(room) > |suffix|
  {
    if |path| + |base| + 2 <= n {
      PathThenBase(path, base, n);
      var front := path + [SLASH] + base;
      var s := WithBase(WithPath(Given(path), n), Given(base));
      if !s.gap {
        assert front + [SLASH] == s.text;
        assert s.text[..|s.text| - 1] == front;
        AddSuffix(front, suffix, s.room);
      } else {
        assert |s.text + suffix| == |Joined(path, base, suffix)| - 1;
      }
    } else {
      TooShort(path, base, suffix, n);
    }
  }

  /** What a single part in front leaves, be it a path or a base name. */
  function Front(front: string, n: nat): Name {
    if |front| < n then Name(front + [SLASH], false, n - |front| - 1) else Name("", false, n)
  }

  lemma {:induction false} OneFront(front: string, n: nat)
    requires |front| < 0x1_0000_0000 && n < 0x8000_0000
    ensures WithPath(Given(front), n) == WithBase(WithPath(Absent, n), Given(front)) == Front(front, n)
    ensures Stripped(Front(front, n)) == if |front| < n then front else ""
  {
    if |front| < n {
      assert "" + front == front;
      assert (front + [SLASH])[..|front|] == front;
    }
  }

  lemma {:induction false} SuffixAfterFront(front: string, suffix: string, n: nat)
    requires |front| + |suffix| + 3 < 0x1_0000_0000 && n < 0x8000_0000
    ensures Stripped(WithSuffix(Front(front, n), Given(suffix))) == front + ['.'] + suffix <==>
              |front| + |suffix| + 2 <= n
  {
    if |front| < n {
      var room := n - |front| - 1;
      assert Unsigned(room) == room;
      AddSuffix(front, suffix, room);
    } else {
      SuffixAlone(suffix, n);
      assert |Stripped(WithSuffix(Front(front, n), Given(suffix)))| < |front + ['.'] + suffix|;
    }
  }

  lemma {:induction false} SuffixAlone(suffix: string, n: nat)
    requires |suffix| < 0x1_0000_0000 && n < 0x8000_0000
    ensures Stripped(WithSuffix(Name("", false, n), Given(suffix))) ==
            if |suffix| + 2 <= n then ['.'] + suffix else if n > 0 then "." else ""
  {
    if n > 0 {
      StrippedAdd(Name(".", false, n - 1), suffix);
      assert Unsigned(n - 1) == n - 1;
    }
  }

  lemma {:induction false} BaseAfterPath(path: string, base: string, n: nat)
    requires Countable(Given(path), Given(base), Absent, n)
    ensures Stripped(WithBase(Front(path, n), Given(base))) == path + [SLASH] + base <==> |path| + |base| + 2 <= n
  {
    OneFront(path, n);
    StrippedAdd(Front(path, n), base);
    if |path| < n {
      assert Unsigned(n - |path| - 1) == n - |path| - 1;
    } else {
      assert |Stripped(WithBase(Front(path, n), Given(base)))| <= |base|;
    }
  }

  /** Of two parts the name is path/base, path.suffix or base.suffix exactly if that fits with a
      terminator. */
  lemma {:induction false} MadeOfTwoIff(a: string, b: string, n: nat)
    requires Countable(Given(a), Given(b), Absent, n)
    ensures Made(Given(a), Given(b), Absent, n) == a + [SLASH] + b <==> |a| + |b| + 2 <= n
    ensures Made(Given(a), Absent, Given(b), n) == a + ['.'] + b <==> |a| + |b| + 2 <= n
    ensures Made(Absent, Given(a), Given(b), n) == a + ['.'] + b <==> |a| + |b| + 2 <= n
  {
    OneFront(a, n);
    SuffixAfterFront(a, b, n);
    BaseAfterPath(a, b, n);
  }

  /** A single part is all there is in the name exactly if it fits with a terminator or is empty,
      and a suffix exactly if there is room for its dot too. */
  lemma {:induction false} MadeOfOneIff(a: string, n: nat)
    requires Countable(Given(a), Absent, Absent, n)
    ensures Made(Given(a), Absent, Absent, n) == a <==> |a| < n || a == ""
    ensures Made(Absent, Given(a), Absent, n) == a <==> |a| < n || a == ""
    ensures Made(Absent, Absent, Given(a), n) == ['.'] + a <==> |a| + 2 <= n || (a == "" && n == 1)
  {
    OneFront(a, n);
    SuffixAlone(a, n);
  }

  lemma {:induction false} StrippedAdd(s: Name, a: string)
    ensures Stripped(AddPart(s, a)) == if Unsigned(s.room) > |a| then s.text + a else Stripped(s)
  {
    var text := s.text + a;
    assert (text + [SLASH])[..|text|] == text;
    assert Unsigned(s.room) > |a| && !HasRoom(s.room - |text|) ==> AddPart(s, a).text == text;
  }

  lemma {:induction false} AddSuffix(front: string, suffix: string, room: int)
    ensures var s := WithSuffix(Name(front + [SLASH], false, room), Given(suffix));
            Stripped(s) == front + ['.'] + suffix <==> Unsigned(room) > |suffix|
  {
    var dotted := Dotted(Name(front + [SLASH], false, room));
    assert (front + [SLASH])[..|front|] == front;
    assert Stripped(Name(front + [SLASH], false, room)) == front;
    assert dotted.text == front + ['.'];
    StrippedAdd(dotted, suffix);
  }

  lemma {:induction false} TooShort(path: string, base: string, suffix: string, n: nat)
    requires Countable(Given(path), Given(base), Given(suffix), n)
    requires n < |path| + |base| + 2
    ensures |Made(Given(path), Given(base), Given(suffix), n)| < |Joined(path, base, suffix)|
  {
    var s1 := WithPath(Given(path), n);
    var s2 := WithBase(s1, Given(base));
    if |path| < n {
      assert |s1.text| == |path| + 1 && s2 == s1;
    } else {
      assert |s2.text| <= |base| + 1 && (n == 0 ==> s2.room == 0);
    }
    StrippedAdd(Dotted(s2), suffix);
  }

  // ---- how much vm_file_makefilename writes ----

  predicate PathFits(path: Part, n: nat) {
    path.Given? && |path.text| < n
  }

  /** The room left after the path. */
  function AfterPath(path: Part, n: nat): nat {
    if PathFits(path, n) then n - |path.text| - 1 else n
  }

  predicate BaseFits(path: Part, base: Part, n: nat) {
    base.Given? && |base.text| < AfterPath(path, n)
  }

  /** With one part of this length in front, or none. */
  predicate OneStaysIn(front: nat, suffix: Part, n: nat) {
    front + 2 <= n && (suffix.Given? ==> n != front + |suffix.text| + 2)
  }

  /** With path and base of these lengths in front. Below 0 the room counts as huge, so any
      suffix is taken. */
  predicate BothStayIn(path: nat, base: nat, suffix: Part, n: nat) {
    var room := n - 2 * path - base - 3;
    && path + base + 3 <= n
    && (suffix.Given? && room < 0 ==>
          if room == -1 then |suffix.text| < path else path + base + |suffix.text| + 4 <= n)
  }

  predicate StaysIn(path: Part, base: Part, suffix: Part, n: nat) {
    if PathFits(path, n) && BaseFits(path, base, n) then BothStayIn(|path.text|, |base.text|, suffix, n)
    else if PathFits(path, n) then OneStaysIn(|path.text|, suffix, n)
    else if BaseFits(path, base, n) then OneStaysIn(|base.text|, suffix, n)
    else n > 0 && (suffix.Given? ==> n > 1 && n != |suffix.text| + 2)
  }

  lemma {:induction false} OneIn(front: string, suffix: Part, n: nat)
    requires |front| < n < 0x8000_0000
    ensures AddPart(Name("", false, n), front) == Name(front + [SLASH], false, n - |front| - 1)
    ensures PartExtent(Name("", false, n), Given(front)) == |front| + 2
    ensures |front| + 2 <= n ==>
              (SuffixExtent(Name(front + [SLASH], false, n - |front| - 1), suffix) <= n <==>
                OneStaysIn(|front|, suffix, n))
  {
    assert "" + front == front;
  }

  lemma {:induction false} BothInFront(path: string, base: string, n: nat)
    requires Countable(Given(path), Given(base), Absent, n) && |path| + |base| + 2 <= n
    ensures FrontExtent(Given(path), Given(base), n) == |path| + |base| + 3
  {
    OneIn(path, Absent, n);
    assert BaseExtent(WithPath(Given(path), n), Given(base)) == |path| + |base| + 3;
  }

  lemma {:induction false} BothInSuffix(s: Name, path: nat, base: nat, suffix: Part, n: nat)
    requires path + base + Size(suffix) + 3 < 0x1_0000_0000 && path + base + 2 <= n < 0x8000_0000
    requires s.room == n - 2 * path - base - 3 && s.gap == (s.room == -1)
    requires |s.text| == path + base + (if s.gap then 1 else 2) && (s.gap || s.text[|s.text| - 1] == SLASH)
    requires path + base + 3 <= n
    ensures SuffixExtent(s, suffix) <= n <==> BothStayIn(path, base, suffix, n)
  {
    assert |Dotted(s).text| == |s.text| && Dotted(s).room == s.room;
    if s.room < 0 {
      assert Unsigned(s.room) == s.room + 0x1_0000_0000 > Size(suffix);
    }
  }

  lemma {:induction false} BothIn(path: string, base: string, suffix: Part, n: nat)
    requires Countable(Given(path), Given(base), suffix, n) && |path| + |base| + 2 <= n
    ensures Extent(Given(path), Given(base), suffix, n) <= n <==> BothStayIn(|path|, |base|, suffix, n)
  {
    PathThenBase(path, base, n);
    BothInFront(path, base, n);
    if |path| + |base| + 3 <= n {
      BothInSuffix(WithBase(WithPath(Given(path), n), Given(base)), |path|, |base|, suffix, n);
    }
  }

  lemma {:induction false} OnlyPathIn(path: string, base: Part, suffix: Part, n: nat)
    requires Countable(Given(path), base, suffix, n) && |path| < n && !BaseFits(Given(path), base, n)
    ensures Extent(Given(path), base, suffix, n) <= n <==> OneStaysIn(|path|, suffix, n)
  {
    OneIn(path, suffix, n);
    var s1 := WithPath(Given(path), n);
    assert BaseExtent(s1, base) == 0 && WithBase(s1, base) == s1;
  }

  lemma {:induction false} OnlyBaseIn(path: Part, base: string, suffix: Part, n: nat)
    requires Countable(path, Given(base), suffix, n) && !PathFits(path, n) && |base| < n
    ensures Extent(path, Given(base), suffix, n) <= n <==> OneStaysIn(|base|, suffix, n)
  {
    OneIn(base, suffix, n);
    assert WithPath(path, n) == Name("", false, n) && PathExtent(path, n) == 0;
  }

  lemma {:induction false} NoneIn(path: Part, base: Part, suffix: Part, n: nat)
    requires Countable(path, base, suffix, n) && !PathFits(path, n) && !BaseFits(path, base, n)
    ensures Extent(path, base, suffix, n) <= n <==> n > 0 && (suffix.Given? ==> n > 1 && n != |suffix.text| + 2)
  {
    var s := Name("", false, n);
    assert WithBase(WithPath(path, n), base) == s && FrontExtent(path, base, n) == 1;
    assert Dotted(s) == Name(".", false, n - 1);
  }

  /** Nothing is written outside of nchars slots exactly in these cases. */
  lemma {:induction false} WritesStayInIff(path: Part, base: Part, suffix: Part, n: nat)
    requires Countable(path, base, suffix, n)
    ensures Extent(path, base, suffix, n) <= n <==> StaysIn(path, base, suffix, n)
  {
    if PathFits(path, n) && BaseFits(path, base, n) {
      BothIn(path.text, base.text, suffix, n);
    } else if PathFits(path, n) {
      OnlyPathIn(path.text, base, suffix, n);
    } else if BaseFits(path, base, n) {
      OnlyBaseIn(path, base.text, suffix, n);
    } else {
      NoneIn(path, base, suffix, n);
    }
  }

  /** A path that just fits is followed by a separator and a terminator: a third slot of two. */
  lemma PathWritesOneMore()
    ensures Extent(Given("p"), Absent, Absent, 2) == 3
  {
    OneIn("p", Absent, 2);
  }

  /** With 6 slots the room left after "ppp" and "b" is -4, and every suffix is appended. */
  lemma {:induction false} SuffixWritesAnyNumber(suffix: string)
    requires Countable(Given("ppp"), Given("b"), Given(suffix), 6)
    ensures Extent(Given("ppp"), Given("b"), Given(suffix), 6) == |suffix| + 8
    ensures Made(Given("ppp"), Given("b"), Given(suffix), 6) == Joined("ppp", "b", suffix)
  {
    PathThenBase("ppp", "b", 6);
    OneIn("ppp", Given(suffix), 6);
    var s2 := WithBase(WithPath(Given("ppp"), 6), Given("b"));
    assert |Dotted(s2).text| == |s2.text| == 6 && Dotted(s2).room == s2.room == -4;
    assert Unsigned(-4) == 0xFFFF_FFFC > |suffix|;
    MadeIsJoinedIff("ppp", "b", suffix, 6);
  }

  // ---- taking it apart again ----

  lemma {:induction false} PartsOfJoined(path: string, base: string, suffix: string)
    requires '.' !in path && '.' !in base && SLASH !in base && '.' !in suffix && SLASH !in suffix
    ensures var name := Joined(path, base, suffix);
            && LastAt(name, SLASH) == |path| && LastAt(name, '.') == FirstAt(name, '.', 0) == |path| + 1 + |base|
            && name[..|path|] == path && name[|path| + 1..|path| + 1 + |base|] == base
            && name[|path| + 1 + |base| + 1..] == suffix
  {
    var name := Joined(path, base, suffix);
    var p, b := |path|, |path| + 1 + |base|;
    assert forall i :: 0 <= i < p ==> name[i] == path[i];
    assert forall i :: p < i < b ==> name[i] == base[i - p - 1];
    assert forall i :: b < i < |name| ==> name[i] == suffix[i - b - 1];
    assert name[p] == SLASH && name[b] == '.';
  }

  /** The base name is what stands between the last slash and the first dot behind it, whatever
      else follows, if there is no dot in front of that slash. */
  lemma {:induction false} BaseIsMiddle(front: string, base: string, rest: string)
    requires front == "" || front[|front| - 1] == SLASH
    requires rest == "" || rest[0] == '.'
    requires SLASH !in base && SLASH !in rest && '.' !in front && '.' !in base
    ensures DotInLastComponent(front + base + rest) && BaseOf(front + base + rest) == base
  {
    var name := front + base + rest;
    var b, d := |front|, |front| + |base|;
    forall i | b <= i < |name| ensures name[i] != SLASH {
      assert name[i] == if i < d then base[i - b] else rest[i - d];
    }
    forall i | 0 <= i < d ensures name[i] != '.' {
      assert name[i] == if i < b then front[i] else base[i - b];
    }
    assert b > 0 ==> name[b - 1] == SLASH;
    assert d < |name| ==> name[d] == '.';
    assert LastAt(name, SLASH) == b - 1;
    assert FirstAt(name, '.', 0) == d;
  }

  /** Taking a name apart recovers what it was put together from exactly if the path does not
      have length 1 and the suffix is not all there is. */
  lemma {:induction false} PartsComeBackIff(path: string, base: string, suffix: string)
    requires '.' !in path && '.' !in base && SLASH !in base && '.' !in suffix && SLASH !in suffix
    ensures var name := Joined(path, base, suffix);
            && DotInLastComponent(name) && BaseOf(name) == base
            && (PathOf(name) == path <==> |path| != 1)
            && (SuffixOf(name) == suffix <==> path != "" || base != "" || suffix == "")
  {
    PartsOfJoined(path, base, suffix);
  }

  lemma {:induction false} ExtentOfJoined(path: string, base: string, suffix: string, n: nat)
    requires Countable(Given(path), Given(base), Given(suffix), n)
    requires n >= 2 * |path| + |base| + |suffix| + 4
    ensures Extent(Given(path), Given(base), Given(suffix), n) == |path| + |base| + |suffix| + 4
  {
    PathThenBase(path, base, n);
    var s1 := WithPath(Given(path), n);
    var s2 := WithBase(s1, Given(base));
    assert |s1.text| == |path| + 1 && s1.room == n - |path| - 1;
    assert |Dotted(s2).text| == |path| + |base| + 2 && Dotted(s2).room == s2.room;
  }

  lemma {:induction false} JoinedIsMade(path: string, base: string, suffix: string, n: nat)
    requires Countable(Given(path), Given(base), Given(suffix), n)
    requires n >= 2 * |path| + |base| + |suffix| + 4
    ensures Made(Given(path), Given(base), Given(suffix), n) == Joined(path, base, suffix)
  {
    var room := RoomAfterBase(path, base, n);
    assert |suffix| < room == Unsigned(room);
    MadeIsJoinedIff(path, base, suffix, n);
  }

  /** The round trip: in a buffer of this size the name fits with its terminator, nothing is
      written outside of it, and the parts come back. */
  lemma {:induction false} RoundTrip(path: string, base: string, suffix: string, n: nat, name: string)
    requires Countable(Given(path), Given(base), Given(suffix), n)
    requires n >= 2 * |path| + |base| + |suffix| + 4 && |path| >= 2
    requires '.' !in path && '.' !in base && SLASH !in base && '.' !in suffix && SLASH !in suffix
    requires name == Made(Given(path), Given(base), Given(suffix), n)
    ensures name == Joined(path, base, suffix) && |name| < n
    ensures Extent(Given(path), Given(base), Given(suffix), n) <= n
    ensures PathOf(name) == path && DotInLastComponent(name) && BaseOf(name) == base && SuffixOf(name) == suffix
  {
    ExtentOfJoined(path, base, suffix, n);
    JoinedIsMade(path, base, suffix, n);
    PartsComeBackIff(path, base, suffix);
  }

  /** The path part is what is in front of the last slash exactly if that is not character 1:
      of "a/b" the path is empty. Without a slash there is none either. */
  lemma {:induction false} PathIsFrontIff(name: string)
    ensures LastAt(name, SLASH) >= 0 ==>
              (PathOf(name) == name[..LastAt(name, SLASH)] <==> LastAt(name, SLASH) != 1)
    ensures PathOf(name) == "" <==> LastAt(name, SLASH) < 2
  {
  }

  /** The suffix is what follows the last dot exactly if that is not one of the first two
      characters or nothing follows it: of "a.c" the suffix is empty. Without a dot there is
      none either. */
  lemma {:induction false} SuffixIsEndIff(name: string)
    ensures LastAt(name, '.') >= 0 ==>
              (SuffixOf(name) == name[LastAt(name, '.') + 1..] <==>
                LastAt(name, '.') >= 2 || LastAt(name, '.') == |name| - 1)
    ensures SuffixOf(name) == "" <==> LastAt(name, '.') < 2 || LastAt(name, '.') == |name| - 1
  {
  }

  // ---- what goes wrong ----

  lemma AddOne(s: Name, a: char)
    requires Unsigned(s.room) > 1
    ensures var text := s.text + [a];
            AddPart(s, [a]) ==
            if HasRoom(s.room - |text|) then Name(text + [SLASH], false, s.room - |text| - 1)
            else Name(text, true, s.room - |text| - 1)
  {
  }

  /** With 5 characters of room "p", "b" and "s" become "p/bs": the place of the dot is still
      null when the suffix is appended. */
  lemma DotIsLost()
    ensures RoomAfterBase("p", "b", 5) == -1 && Made(Given("p"), Given("b"), Given("s"), 5) == "p/bs"
  {
    AddOne(Name("", false, 5), 'p');
    assert WithPath(Given("p"), 5) == Name("p/", false, 3);
    AddOne(Name("p/", false, 3), 'b');
    assert WithBase(Name("p/", false, 3), Given("b")) == Name("p/b", true, -1);
    AddOne(Name("p/b", true, -1), 's');
    assert WithSuffix(Name("p/b", true, -1), Given("s")) == Name("p/bs/", false, -6);
    assert "p/bs/"[..4] == "p/bs";
  }

  /** With 6 they become "p/b": the counter is zero when the suffix is looked at. */
  lemma SuffixIsLost()
    ensures RoomAfterBase("p", "b", 6) == 0 && Made(Given("p"), Given("b"), Given("s"), 6) == "p/b"
  {
    AddOne(Name("", false, 6), 'p');
    assert WithPath(Given("p"), 6) == Name("p/", false, 4);
    AddOne(Name("p/", false, 4), 'b');
    assert WithBase(Name("p/", false, 4), Given("b")) == Name("p/b/", false, 0);
    assert "p/b/"[..3] == "p/b";
  }

  lemma ShortNames()
    ensures PathOf("a/b") == "" && SuffixOf("a.c") == ""
  {
    assert "a/b"[1] == '/' && "a/b"[2] == 'b' && "a.c"[1] == '.' && "a.c"[2] == 'c';
  }

  // ---- the code ----

  /** The text a pointer stands for. */
  ghost predicate Stands(a: array?<char>, part: Part)
    reads a
  {
    if a == null then part.Absent? else part.Given? && IsCString(a, |part.text|) && a[..|part.text|] == part.text
  }

  /** The buffer of vm_file_makefilename with its two counters. */
  ghost predicate Holds(filename: array<char>, offs: int, nchars: int, s: Name)
    reads filename
  {
    IsCString(filename, |s.text|) && filename[..|s.text|] == s.text && offs == Offs(s) && nchars == s.room
  }

  /** ADDPARM */
  method AddParm(filename: array<char>, a: array<char>, offs0: nat, nchars0: int, ghost s: Name, ghost text: string)
    returns (offs: nat, nchars: int)
    requires filename != a && Holds(filename, offs0, nchars0, s) && Stands(a, Given(text))
    requires PartExtent(s, Given(text)) <= filename.Length
    modifies filename
    ensures Holds(filename, offs, nchars, AddPart(s, text))
    ensures forall i :: PartExtent(s, Given(text)) <= i < filename.Length ==> filename[i] == old(filename[i])
  {
    offs, nchars := offs0, nchars0;
    var n := StrLen(a, |text|);
    if Unsigned(nchars) > n {
      StrCat(filename, |s.text|, a, |text|);
      offs := StrLen(filename, |s.text| + |text|);
      nchars := nchars - offs;
      ghost var was := filename[..];
      assert filename[..offs] == s.text + text;
      if HasRoom(nchars) {
        filename[offs] := SLASH;
      }
      offs := offs + 1;
      nchars := nchars - 1;
      filename[offs] := '\0';
      assert filename[..offs - 1] == s.text + text;
    }
  }

  /** The separator before the suffix becomes a dot. */
  method PutDot(filename: array<char>, offs0: nat, nchars0: int, ghost s: Name) returns (offs: nat, nchars: int)
    requires Holds(filename, offs0, nchars0, s) && |Dotted(s).text| < filename.Length && (s.gap ==> s.text != "")
    modifies filename
    ensures Holds(filename, offs, nchars, Dotted(s))
    ensures forall i :: |Dotted(s).text| < i < filename.Length ==> filename[i] == old(filename[i])
  {
    offs, nchars := offs0, nchars0;
    if offs == 0 {
      filename[offs] := '.';
      offs := offs + 1;
      filename[offs] := '\0';
      nchars := nchars - 1;
    } else if filename[offs - 1] == SLASH {
      assert !s.gap && filename[offs - 1] == s.text[|s.text| - 1];
      filename[offs - 1] := '.';
      assert filename[..offs] == s.text[..offs - 1] + ".";
    } else {
      assert !s.gap ==> filename[offs - 1] == s.text[|s.text| - 1];
    }
  }

  /** The last separator goes. */
  method StripSlash(filename: array<char>, offs: nat, ghost s: Name)
    requires Holds(filename, offs, s.room, s) && offs > 0 && (s.gap ==> s.text != "")
    modifies filename
    ensures Stands(filename, Given(Stripped(s)))
    ensures forall i :: |s.text| <= i < filename.Length ==> filename[i] == old(filename[i])
  {
    assert !s.gap ==> filename[offs - 1] == s.text[|s.text| - 1];
    if filename[offs - 1] == SLASH {
      filename[offs - 1] := '\0';
    }
  }

  /** The last part of vm_file_makefilename, when path and base are in. */
  method AddSuffixAndStrip(
      suffix: array?<char>, filename: array<char>, offs0: nat, nchars0: int, ghost s: Name, ghost x: Part)
    requires filename != suffix && Stands(suffix, x) && Holds(filename, offs0, nchars0, s)
    requires Max(|s.text| + 1, SuffixExtent(s, x)) <= filename.Length && (s.gap ==> s.text != "")
    requires Offs(WithSuffix(s, x)) > 0
    modifies filename
    ensures Stands(filename, Given(Stripped(WithSuffix(s, x))))
    ensures forall i :: Max(|s.text| + 1, SuffixExtent(s, x)) <= i < filename.Length ==> filename[i] == old(filename[i])
  {
    var offs, nchars := offs0, nchars0;
    if HasRoom(nchars) && suffix != null {
      offs, nchars := PutDot(filename, offs, nchars, s);
      offs, nchars := AddParm(filename, suffix, offs, nchars, Dotted(s), x.text);
    }
    StripSlash(filename, offs, WithSuffix(s, x));
  }

  /** The first part of vm_file_makefilename: the path, if it fits. */
  method WritePath(path: array?<char>, filename: array<char>, nchars0: nat, ghost p: Part)
    returns (offs: nat, nchars: int)
    requires filename != path && Stands(path, p) && Max(1, PathExtent(p, nchars0)) <= filename.Length
    modifies filename
    ensures Holds(filename, offs, nchars, WithPath(p, nchars0))
    ensures forall i :: Max(1, PathExtent(p, nchars0)) <= i < filename.Length ==> filename[i] == old(filename[i])
  {
    offs, nchars := 0, nchars0;
    filename[0] := '\0';
    if path != null {
      var n := StrLen(path, |p.text|);
      if n < nchars {
        offs, nchars := AddParm(filename, path, offs, nchars, Name("", false, nchars0), p.text);
      }
    }
  }

  /** The second part: the base name, if it fits. */
  method WriteBase(base: array?<char>, filename: array<char>, offs0: nat, nchars0: int, ghost s: Name, ghost b: Part)
    returns (offs: nat, nchars: int)
    requires filename != base && Stands(base, b) && Holds(filename, offs0, nchars0, s)
    requires BaseExtent(s, b) <= filename.Length
    modifies filename
    ensures Holds(filename, offs, nchars, WithBase(s, b))
    ensures forall i :: BaseExtent(s, b) <= i < filename.Length ==> filename[i] == old(filename[i])
  {
    offs, nchars := offs0, nchars0;
    if HasRoom(nchars) && base != null {
      offs, nchars := AddParm(filename, base, offs, nchars, s, b.text);
    }
  }

  /** vm_file_makefilename. There must be something to put into the buffer, and the buffer must
      be as large as what is written to it; when that is within nchars, WritesStayInIff says. */
  method MakeFileName(
      path: array?<char>, base: array?<char>, suffix: array?<char>, filename: array<char>, nchars0: nat,
      ghost p: Part, ghost b: Part, ghost x: Part)
    requires filename != path && filename != base && filename != suffix
    requires Stands(path, p) && Stands(base, b) && Stands(suffix, x)
    requires Countable(p, b, x, nchars0) && Extent(p, b, x, nchars0) <= filename.Length
    requires Offs(Parts(p, b, x, nchars0)) > 0
    modifies filename
    ensures Stands(filename, Given(Made(p, b, x, nchars0)))
    ensures forall i :: Extent(p, b, x, nchars0) <= i < filename.Length ==> filename[i] == old(filename[i])
  {
    FrontIsWritten(p, b, nchars0);
    ghost var s1 := WithPath(p, nchars0);
    var offs, nchars := WritePath(path, filename, nchars0, p);
    offs, nchars := WriteBase(base, filename, offs, nchars, s1, b);
    ghost var s2 := WithBase(s1, b);
    assert s2.gap ==> s2.text != "";
    AddSuffixAndStrip(suffix, filename, offs, nchars, s2, x);
  }

  /** The backward loops: one down for every character looked at, until `c` or the front. */
  method GoBack(filename: array<char>, ghost name: string, c: char) returns (len: nat)
    requires Stands(filename, Given(name)) && c != '\0'
    ensures len == ScanBack(name, c)
  {
    len := StrLen(filename, |name|);
    var stop := false;
    while len != 0 && !stop
      invariant len <= |name|
      invariant !stop ==> forall i :: len < i < |name| ==> name[i] != c
      invariant stop ==> len == LastAt(name, c) - 1
      decreases len, !stop
    {
      assert len < |name| ==> filename[len] == name[len];
      stop := filename[len] == c;
      len := len - 1;
    }
  }

  /** vm_file_getpath: at most nchars characters of the path are copied, but the terminator
      goes where the whole path would end, with whatever was there in between. */
  method GetPath(filename: array<char>, path: array<char>, nchars: nat, ghost name: string)
    requires filename != path && Stands(filename, Given(name)) && path.Length >= PathSlots(name)
    modifies path
    ensures forall i :: PathSlots(name) <= i < path.Length ==> path[i] == old(path[i])
    ensures var k := |PathOf(name)|;
            && path[k] == '\0'
            && (k <= nchars + 1 ==> path[..k] == PathOf(name))
            && (k > nchars + 1 ==>
                  && path[..nchars] == PathOf(name)[..nchars]
                  && forall i :: nchars <= i < k ==> path[i] == if i == 0 then '\0' else old(path[i]))
  {
    path[0] := '\0';
    var len := GoBack(filename, name, SLASH);
    if len != 0 {
      var n := if len <= nchars then len + 1 else nchars;
      ghost var was := path[..];
      MemCpy(path, filename, 0, n);
      assert forall i :: n <= i < path.Length ==> path[i] == path[n..][i - n] == was[i];
      path[len + 1] := '\0';
      assert filename[..|name|][..n] == PathOf(name)[..n];
    }
  }

  /** Looks for slash after slash from the front. */
  method FindLastSlash(filename: array<char>, ghost name: string) returns (q1: nat, hasSlash: bool)
    requires Stands(filename, Given(name))
    ensures if hasSlash then q1 == LastAt(name, SLASH) else q1 == 0 && LastAt(name, SLASH) == -1
  {
    var s: nat, q0: nat, more := 0, 0, true;
    q1, hasSlash := 0, false;
    while more
      invariant q1 <= s <= |name| && if hasSlash then s == q1 + 1 && name[q1] == SLASH else s == q1 == 0
      invariant !more ==> forall i :: s <= i < |name| ==> name[i] != SLASH
      decreases |name| - s, more
    {
      more, q0 := StrChr(filename, |name|, s, SLASH);
      if more {
        q1, hasSlash, s := q0, true, q0 + 1;
      }
    }
  }

  /** memcpy of a part of a string, and a terminator behind it. */
  method CopyOut(filename: array<char>, to: array<char>, at: nat, n: nat, ghost name: string)
    requires filename != to && Stands(filename, Given(name)) && at + n <= |name| && n < to.Length
    modifies to
    ensures to[..n] == name[at..at + n] && to[n] == '\0'
    ensures forall i :: n < i < to.Length ==> to[i] == old(to[i])
  {
    ghost var was := to[..];
    MemCpy(to, filename, at, n);
    assert forall i :: n <= i < to.Length ==> to[i] == to[n..][i - n] == was[n..][i - n];
    forall i | 0 <= i < n ensures to[i] == name[at + i] {
      assert to[..n][i] == filename[at..at + n][i];
      assert filename[..|name|][at + i] == name[at + i];
    }
    to[n] := '\0';
  }

  lemma {:induction false} BaseIsSlice(name: string, nchars: nat)
    requires DotInLastComponent(name) && (nchars > 0 || BaseOf(name) == "")
    ensures var b := Truncated(BaseOf(name), nchars); b == name[BaseStart(name)..BaseStart(name) + |b|]
  {
  }

  /** The first half of vm_file_getbasename: where the base name is and how long. There is
      nothing to copy if the first dot or the end is where the count begins. */
  method FindBase(filename: array<char>, ghost name: string) returns (any: bool, q1: nat, chrs: nat)
    requires Stands(filename, Given(name)) && DotInLastComponent(name)
    ensures if any then q1 == BaseStart(name) && chrs == |BaseOf(name)| else BaseOf(name) == ""
  {
    var hasDot, p := StrChr(filename, |name|, 0, '.');
    var hasSlash;
    q1, hasSlash := FindLastSlash(filename, name);
    if !hasDot {
      p := StrLen(filename, |name|);
    }
    assert p == FirstAt(name, '.', 0);
    CountedIsNegativeIff(name);
    chrs := p - q1;
    any := chrs != 0;
    if any {
      assert filename[q1] == filename[..|name|][q1] == name[q1];
      if filename[q1] == SLASH {
        q1 := q1 + 1;
        chrs := chrs - 1;
      }
    }
  }

  /** vm_file_getbasename, for names whose first dot is behind the last slash. A base name of
      exactly nchars characters is copied whole, a longer one without its tail. */
  method GetBaseName(filename: array<char>, base: array<char>, nchars: nat, ghost name: string)
    requires filename != base && Stands(filename, Given(name)) && DotInLastComponent(name)
    requires nchars > 0 || BaseOf(name) == ""
    requires base.Length >= BaseSlots(name, nchars)
    modifies base
    ensures forall i :: BaseSlots(name, nchars) <= i < base.Length ==> base[i] == old(base[i])
    ensures var b := Truncated(BaseOf(name), nchars); base[..|b|] == b && base[|b|] == '\0'
  {
    base[0] := '\0';
    var any, q1, chrs := FindBase(filename, name);
    if any {
      BaseIsSlice(name, nchars);
      if chrs > nchars {
        chrs := nchars - 1;
      }
      CopyOut(filename, base, q1, chrs, name);
    }
  }

  /** The loop of vm_file_getsuffix. */
  method CopyTail(filename: array<char>, suffix: array<char>, at: nat, nchars: nat, ghost name: string)
    requires filename != suffix && Stands(filename, Given(name)) && at <= |name|
    requires suffix.Length > Fitting(|name| - at, nchars)
    modifies suffix
    ensures var n := Fitting(|name| - at, nchars);
            && suffix[..n] == name[at..at + n] && suffix[n] == '\0'
            && forall i :: n < i < suffix.Length ==> suffix[i] == old(suffix[i])
  {
    var i, len := 0, at;
    while filename[len] != '\0'
      invariant len == at + i <= |name| && (i == 0 || i < nchars) && suffix[..i] == name[at..len]
      invariant forall k :: i <= k < suffix.Length ==> suffix[k] == old(suffix[k])
      decreases |name| - len
    {
      assert filename[len] == filename[..|name|][len] == name[len];
      suffix[i] := filename[len];
      i := i + 1;
      if i >= nchars {
        break;
      }
      len := len + 1;
    }
    suffix[i] := '\0';
  }

  /** vm_file_getsuffix: at most nchars characters, but at least one. */
  method GetSuffix(filename: array<char>, suffix: array<char>, nchars: nat, ghost name: string)
    requires filename != suffix && Stands(filename, Given(name))
    requires suffix.Length >= SuffixSlots(name, nchars)
    modifies suffix
    ensures forall i :: SuffixSlots(name, nchars) <= i < suffix.Length ==> suffix[i] == old(suffix[i])
    ensures var n := Fitting(|SuffixOf(name)|, nchars); suffix[..n] == SuffixOf(name)[..n] && suffix[n] == '\0'
  {
    suffix[0] := '\0';
    var len := GoBack(filename, name, '.');
    if len != 0 {
      len := len + 2;
      CopyTail(filename, suffix, len, nchars, name);
    }
  }
}
