/** Lines of a text, and the tilde fences around literal ones. */
module TextLines {
  import opened Common

  /** sep.join(parts) */
  function Join(sep: string, parts: seq<string>): string {
    if parts == [] then []
    else if |parts| == 1 then parts[0]
    else Join(sep, parts[..|parts| - 1]) + sep + parts[|parts| - 1]
  }

  /** s.split("\n") */
  function Split(s: string): (lines: seq<string>)
    ensures lines != [] && forall k :: 0 <= k < |lines| ==> '\n' !in lines[k]
  {
    if s == [] then [[]]
    else
      var lines := Split(s[..|s| - 1]);
      var last := |lines| - 1;
      if s[|s| - 1] == '\n' then lines + [[]] else lines[last := lines[last] + [s[|s| - 1]]]
  }

  /** Line ends as "\n" alone. */
  function Lf(s: string): (r: string)
    ensures '\r' !in r
    decreases |s|
  {
    if s == [] then []
    else if s[0] != '\r' then [s[0]] + Lf(s[1..])
    else if |s| > 1 && s[1] == '\n' then ['\n'] + Lf(s[2..])
    else ['\n'] + Lf(s[1..])
  }

  lemma {:induction false} LfKeeps(s: string)
    requires '\r' !in s
    ensures Lf(s) == s
  {
    if s != [] {
      assert s[0] in s && s == [s[0]] + s[1..];
      LfKeeps(s[1..]);
    }
  }

  /** Line ends are normalised piece by piece, as long as no "\r\n" is cut in two. */
  lemma {:induction false} LfConcat(a: string, b: string)
    requires !(a != [] && a[|a| - 1] == '\r' && b != [] && b[0] == '\n')
    ensures Lf(a + b) == Lf(a) + Lf(b)
    decreases |a|
  {
    if a == [] {
      assert a + b == b;
    } else {
      var n := if a[0] == '\r' && |a| > 1 && a[1] == '\n' then 2 else 1;
      assert (a + b)[n..] == a[n..] + b;
      assert |a| > 1 ==> (a + b)[1] == a[1];
      LfConcat(a[n..], b);
    }
  }

  /** A Windows line end becomes one line end, wherever it stands. */
  lemma LfWindows(a: string, b: string)
    ensures Lf(a + "\r\n" + b) == Lf(a) + "\n" + Lf(b)
  {
    var end := "\r\n" + b;
    assert a + "\r\n" + b == a + end;
    assert end[2..] == b;
    assert Lf(end) == "\n" + Lf(b);
    hide Lf;
    LfConcat(a, end);
    assert Lf(a) + ("\n" + Lf(b)) == Lf(a) + "\n" + Lf(b);
  }

  /** So does a carriage return alone. */
  lemma LfReturn(a: string, b: string)
    requires b == [] || b[0] != '\n'
    ensures Lf(a + "\r" + b) == Lf(a) + "\n" + Lf(b)
  {
    var end := "\r" + b;
    assert a + "\r" + b == a + end;
    assert end[1..] == b;
    assert Lf(end) == "\n" + Lf(b);
    hide Lf;
    LfConcat(a, end);
    assert Lf(a) + ("\n" + Lf(b)) == Lf(a) + "\n" + Lf(b);
  }

  /** Every line end written as on Windows. */
  function Windows(s: string): string {
    if s == [] then [] else (if s[0] == '\n' then "\r\n" else [s[0]]) + Windows(s[1..])
  }

  lemma {:induction false} LfOfWindows(s: string)
    requires '\r' !in s
    ensures Lf(Windows(s)) == s
  {
    if s != [] {
      var rest := Windows(s[1..]);
      assert s == [s[0]] + s[1..] && s[0] in s;
      LfOfWindows(s[1..]);
      if s[0] == '\n' {
        LfWindows([], rest);
        assert [] + "\r\n" + rest == Windows(s);
      } else {
        assert Windows(s)[1..] == rest;
      }
    }
  }

  lemma JoinAppend(sep: string, parts: seq<string>, last: string)
    requires parts != []
    ensures Join(sep, parts + [last]) == Join(sep, parts) + sep + last
  {
    assert (parts + [last])[..|parts|] == parts;
  }

  lemma JoinOne(sep: string, part: string)
    ensures Join(sep, [part]) == part
  {
  }

  lemma Reassociate(a: string, sep: string, b: string, c: string)
    ensures (a + sep + b) + sep + c == a + sep + (b + sep + c)
  {
  }

  lemma {:induction false} JoinConcat(sep: string, a: seq<string>, b: seq<string>)
    requires a != [] && b != []
    ensures Join(sep, a + b) == Join(sep, a) + sep + Join(sep, b)
    decreases |b|
  {
    hide Join;
    var last := b[|b| - 1];
    if |b| == 1 {
      assert b == [last];
      JoinOne(sep, last);
      JoinAppend(sep, a, last);
    } else {
      var init := b[..|b| - 1];
      assert a + b == (a + init) + [last] && b == init + [last];
      JoinConcat(sep, a, init);
      JoinAppend(sep, a + init, last);
      JoinAppend(sep, init, last);
      Reassociate(Join(sep, a), sep, Join(sep, init), last);
    }
  }

  lemma {:induction false} JoinSplit(s: string)
    ensures Join("\n", Split(s)) == s
  {
    if s == [] {
      assert Split(s) == [[]];
    } else {
      var init, c := s[..|s| - 1], s[|s| - 1];
      assert s == init + [c];
      JoinSplit(init);
      var lines := Split(init);
      if c == '\n' {
        JoinAppend("\n", lines, []);
        assert init + "\n" + [] == s;
      } else {
        JoinLast(lines, c);
      }
    }
  }

  /** A character appended to the last line is appended to the text. */
  lemma JoinLast(lines: seq<string>, c: char)
    requires lines != []
    ensures Join("\n", lines[|lines| - 1 := lines[|lines| - 1] + [c]]) == Join("\n", lines) + [c]
  {
    var last := lines[|lines| - 1];
    var longer := lines[|lines| - 1 := last + [c]];
    if |lines| > 1 {
      var init := lines[..|lines| - 1];
      assert longer[..|lines| - 1] == init;
      assert Join("\n", init) + "\n" + (last + [c]) == Join("\n", init) + "\n" + last + [c];
    }
  }

  lemma {:induction false} SplitAppend(s: string, line: string)
    requires '\n' !in line
    ensures Split(s + "\n" + line) == Split(s) + [line]
  {
    var all := s + "\n" + line;
    if line == [] {
      assert all[..|all| - 1] == s;
    } else {
      var init, c := line[..|line| - 1], line[|line| - 1];
      assert c in line && '\n' !in init;
      SplitAppend(s, init);
      assert all[..|all| - 1] == s + "\n" + init;
      assert init + [c] == line;
      assert (Split(s) + [init])[|Split(s)| := line] == Split(s) + [line];
    }
  }

  lemma {:induction false} SplitLine(line: string)
    requires '\n' !in line
    ensures Split(line) == [line]
  {
    if line != [] {
      var init, c := line[..|line| - 1], line[|line| - 1];
      assert c in line && '\n' !in init && init + [c] == line;
      SplitLine(init);
    }
  }

  lemma {:induction false} SplitJoin(lines: seq<string>)
    requires lines != [] && forall k :: 0 <= k < |lines| ==> '\n' !in lines[k]
    ensures Split(Join("\n", lines)) == lines
  {
    var last := lines[|lines| - 1];
    if |lines| == 1 {
      SplitLine(last);
    } else {
      var init := lines[..|lines| - 1];
      SplitJoin(init);
      SplitAppend(Join("\n", init), last);
      assert init + [last] == lines;
    }
  }

  lemma {:induction false} JoinLacks(lines: seq<string>, c: char)
    requires c != '\n' && forall k :: 0 <= k < |lines| ==> c !in lines[k]
    ensures c !in Join("\n", lines)
  {
    if |lines| > 1 {
      JoinLacks(lines[..|lines| - 1], c);
    }
  }

  lemma {:induction false} SplitLacks(s: string, c: char, k: nat)
    requires c !in s && k < |Split(s)|
    ensures c !in Split(s)[k]
  {
    if s != [] {
      var init := s[..|s| - 1];
      assert s[|s| - 1] in s && forall x :: x in init ==> x in s;
      if k < |Split(init)| {
        SplitLacks(init, c, k);
      }
    }
  }

  // -------------------------------------------------------------------- fences

  function LeadingTildes(s: string): nat {
    if s == [] || s[0] != '~' then 0 else 1 + LeadingTildes(s[1..])
  }

  /** The length of the longest run of tildes. */
  function LongestTildes(s: string): nat {
    if s == [] then 0 else Max(LeadingTildes(s), LongestTildes(s[1..]))
  }

  function Tildes(n: nat): (s: string)
    ensures |s| == n && forall k :: 0 <= k < n ==> s[k] == '~'
  {
    seq(n, _ => '~')
  }

  /** A fence longer than any run of tildes in the value. */
  function Fence(value: string): string {
    Tildes(Max(4, LongestTildes(value) + 1))
  }

  lemma {:induction false} LeadingAtLeast(s: string, n: nat)
    requires n <= |s| && forall k :: 0 <= k < n ==> s[k] == '~'
    ensures LeadingTildes(s) >= n
  {
    if n > 0 {
      LeadingAtLeast(s[1..], n - 1);
    }
  }

  /** No run of tildes in the text is longer. */
  lemma {:induction false} LongestAtLeast(s: string, i: nat, n: nat)
    requires i + n <= |s| && forall k :: i <= k < i + n ==> s[k] == '~'
    ensures LongestTildes(s) >= n
  {
    if i == 0 {
      LeadingAtLeast(s, n);
    } else {
      LongestAtLeast(s[1..], i - 1, n);
    }
  }

  /** Some run is that long. */
  lemma {:induction false} LongestIsARun(s: string) returns (i: nat)
    ensures i + LongestTildes(s) <= |s|
    ensures forall k :: i <= k < i + LongestTildes(s) ==> s[k] == '~'
  {
    i := 0;
    if s != [] {
      if LeadingTildes(s) >= LongestTildes(s[1..]) {
        LeadingIsARun(s);
      } else {
        var j := LongestIsARun(s[1..]);
        i := j + 1;
        assert forall k :: i <= k < i + LongestTildes(s) ==> s[k] == s[1..][k - 1];
      }
    }
  }

  lemma {:induction false} LeadingIsARun(s: string)
    ensures LeadingTildes(s) <= |s| && forall k :: 0 <= k < LeadingTildes(s) ==> s[k] == '~'
  {
    if s != [] && s[0] == '~' {
      LeadingIsARun(s[1..]);
      assert forall k :: 1 <= k < LeadingTildes(s) ==> s[k] == s[1..][k - 1];
    }
  }

  /** The fence has at least four tildes, and more only where a run of the value forces it. */
  lemma FenceIsShortest(value: string)
    ensures |Fence(value)| >= 4 && forall k :: 0 <= k < |Fence(value)| ==> Fence(value)[k] == '~'
    ensures |Fence(value)| > 4 ==> exists i: nat, n: nat :: n + 1 == |Fence(value)| && RunAt(value, i, n)
    ensures forall i: nat :: !RunAt(value, i, |Fence(value)|)
  {
    var i := LongestIsARun(value);
    assert RunAt(value, i, LongestTildes(value));
    forall j: nat ensures !RunAt(value, j, |Fence(value)|) {
      if RunAt(value, j, |Fence(value)|) {
        LongestAtLeast(value, j, |Fence(value)|);
      }
    }
  }

  /** A run of n tildes stands here. */
  predicate RunAt(s: string, i: nat, n: nat) {
    i + n <= |s| && forall k :: i <= k < i + n ==> s[k] == '~'
  }

  lemma {:induction false} LineWithin(lines: seq<string>, k: nat) returns (i: nat)
    requires k < |lines|
    ensures At(Join("\n", lines), i, lines[k])
  {
    var last := lines[|lines| - 1];
    if |lines| == 1 {
      i := 0;
    } else {
      var init := lines[..|lines| - 1];
      var before := Join("\n", init) + "\n";
      assert Join("\n", lines) == before + last;
      if k == |init| {
        i := |before|;
      } else {
        i := LineWithin(init, k);
        assert Join("\n", lines)[i..i + |lines[k]|] == Join("\n", init)[i..i + |lines[k]|];
      }
    }
  }

  /** The fence of a value is none of the value's lines. */
  lemma FenceIsNoLine(value: string, k: nat)
    requires k < |Split(value)|
    ensures Split(value)[k] != Fence(value)
  {
    JoinSplit(value);
    var i := LineWithin(Split(value), k);
    var fence := Fence(value);
    if Split(value)[k] == fence {
      forall j | i <= j < i + |fence| ensures value[j] == '~' {
        AtIndex(value, i, fence, j - i);
      }
      LongestAtLeast(value, i, |fence|);
    }
  }
}
