/** parse_arg of cshell/src/main.c: the line is cut into words in place. */
module ShellArgs {

  const MAXARGS := 16
  const NULL := -1

  /** strchr(WHITESPACE, c) */
  predicate Space(c: char) { c == '\t' || c == '\r' || c == '\n' || c == ' ' }

  /** A word begins at i. */
  predicate IsStart(line: seq<char>, i: int) {
    0 <= i < |line| && !Space(line[i]) && (i == 0 || Space(line[i - 1]))
  }

  /** Where the words begin among the first n characters. */
  function Starts(line: seq<char>, n: nat): seq<int>
    requires n <= |line|
  {
    if n == 0 then [] else Starts(line, n - 1) + if IsStart(line, n - 1) then [n - 1] else []
  }

  /** The end of the word at i: the next space, or the end of the line. */
  function End(line: seq<char>, i: nat): nat
    requires i <= |line|
    decreases |line| - i
  {
    if i == |line| || Space(line[i]) then i else End(line, i + 1)
  }

  /** The line with its spaces overwritten by zeros. */
  function Cut(line: seq<char>): (r: seq<char>)
    ensures |r| == |line| && forall i :: 0 <= i < |line| ==> r[i] == if Space(line[i]) then '\0' else line[i]
  {
    if line == [] then [] else Cut(line[..|line| - 1]) + [if Space(line[|line| - 1]) then '\0' else line[|line| - 1]]
  }

  /** The C string at position i of a buffer. */
  function CString(buf: seq<char>, i: nat): seq<char>
    requires i <= |buf|
    decreases |buf| - i
  {
    if i == |buf| || buf[i] == '\0' then [] else [buf[i]] + CString(buf, i + 1)
  }

  // ---- what the argument vector means

  /** The vector lists the beginnings of words, all of them, in order. */
  lemma {:induction false} StartsAre(line: seq<char>, n: nat)
    requires n <= |line|
    ensures forall i :: i in Starts(line, n) <==> i < n && IsStart(line, i)
    ensures forall a, b :: 0 <= a < b < |Starts(line, n)| ==> Starts(line, n)[a] < Starts(line, n)[b]
  {
    if n > 0 {
      StartsAre(line, n - 1);
      var s, t := Starts(line, n - 1), Starts(line, n);
      forall i
        ensures i in t <==> i < n && IsStart(line, i)
      {
        assert i in t <==> i in s || (i == n - 1 && IsStart(line, n - 1));
      }
      forall a, b | 0 <= a < b < |t|
        ensures t[a] < t[b]
      {
        assert b < |s| ==> s[a] < s[b];
        assert a < |s| ==> s[a] in s;
      }
    }
  }

  lemma {:induction false} EndIs(line: seq<char>, i: nat)
    requires i <= |line|
    decreases |line| - i
    ensures i <= End(line, i) <= |line| && (End(line, i) < |line| ==> Space(line[End(line, i)]))
    ensures forall j :: i <= j < End(line, i) ==> !Space(line[j])
  {
    if i < |line| && !Space(line[i]) {
      EndIs(line, i + 1);
    }
  }

  /** Each entry of the vector, read as a C string of the cut buffer, is a word of the line: a
      run without spaces that no space-free run contains, and with all its characters. */
  lemma WordAt(line: seq<char>, i: nat)
    requires '\0' !in line && IsStart(line, i)
    ensures i < End(line, i) <= |line| && CString(Cut(line) + ['\0'], i) == line[i..End(line, i)]
    ensures (i == 0 || line[i - 1] in " \t\r\n") && (End(line, i) == |line| || line[End(line, i)] in " \t\r\n")
    ensures forall j :: i <= j < End(line, i) ==> line[j] !in " \t\r\n"
  {
    EndIs(line, i);
    CutString(line, i);
  }

  lemma {:induction false} CutString(line: seq<char>, i: nat)
    requires '\0' !in line && i <= |line|
    decreases |line| - i
    ensures i <= End(line, i) <= |line| && CString(Cut(line) + ['\0'], i) == line[i..End(line, i)]
  {
    EndIs(line, i);
    var buf := Cut(line) + ['\0'];
    if i < |line| && !Space(line[i]) {
      assert line[i] in line;
      CutString(line, i + 1);
      assert line[i..End(line, i)] == [line[i]] + line[i + 1..End(line, i)];
    }
  }

  /** The words do not overlap: each ends before the next one begins, with a space between. */
  lemma WordsApart(line: seq<char>, a: nat, b: nat)
    requires a < b < |Starts(line, |line|)|
    ensures var s := Starts(line, |line|);
            0 <= s[a] <= |line| && End(line, s[a]) < s[b]
  {
    var s := Starts(line, |line|);
    StartsAre(line, |line|);
    assert s[a] in s && s[b] in s;
    EndIs(line, s[a]);
    assert Space(line[s[b] - 1]);
  }

  /** Every character that is not a space belongs to a word. */
  lemma {:induction false} Covered(line: seq<char>, j: nat) returns (i: nat)
    requires j < |line| && line[j] !in " \t\r\n"
    ensures i <= j && i in Starts(line, |line|) && j < End(line, i)
  {
    StartsAre(line, |line|);
    if j == 0 || Space(line[j - 1]) {
      i := j;
      EndIs(line, j);
    } else {
      i := Covered(line, j - 1);
      EndIs(line, i);
    }
  }

  lemma {:induction false} StartsGrow(line: seq<char>, n: nat, m: nat)
    requires n <= m <= |line|
    ensures |Starts(line, n)| <= |Starts(line, m)| && Starts(line, n) == Starts(line, m)[..|Starts(line, n)|]
  {
    if n < m {
      StartsGrow(line, n, m - 1);
    }
  }

  // ---- the shell's global argument vector

  class Shell {
    var argc: int
    const argv: array<int>     // positions in the line, or NULL

    constructor ()
      ensures argv.Length == MAXARGS && fresh(argv)
    {
      argc := 0;
      argv := new int[MAXARGS](_ => NULL);
    }

    /** parse_arg; n is where the line ends.  It succeeds exactly when the line has at most 15
        words; the vector then holds all of them and a null after them, and the buffer has a
        zero in place of every space. */
    method ParseArg(buf: array<char>, ghost n: nat) returns (r: int)
      requires argv.Length == MAXARGS
      requires n < buf.Length && buf[n] == '\0' && '\0' !in buf[..n]
      modifies this, argv, buf
      ensures var line := old(buf[..n]);
              r == if |Starts(line, n)| < MAXARGS then 1 else 0
      ensures r == 1 ==> var line := old(buf[..n]);
              argc == |Starts(line, n)| && argv[..argc] == Starts(line, n) && argv[argc] == NULL && buf[..n] == Cut(line)
      ensures r == 0 ==> argc == MAXARGS - 1 && argv[..argc] == Starts(old(buf[..n]), n)[..argc]
      ensures buf[n..] == old(buf[n..])
    {
      hide Starts, Cut;
      ghost var line := buf[..n];
      NoStarts(line);
      argc := 0;
      argv[argc] := NULL;
      var p := 0;
      while true
        invariant 0 <= p <= n && buf[n..] == old(buf[n..])
        invariant argc == |Starts(line, p)| < MAXARGS && argv[..argc] == Starts(line, p)
        invariant buf[..p] == Cut(line)[..p] && buf[p..n] == line[p..]
        invariant p == 0 || p == n || Space(line[p])
        decreases n - p + if p == 0 then 1 else 0
      {
        ghost var q := p;
        p := SkipSpaces(buf, p, line);
        StartsSkip(line, q, p);
        assert buf[p] == if p == n then '\0' else line[p];
        assert p < n ==> line[p] in line;
        if buf[p] == '\0' {
          break;
        }
        if argc == MAXARGS - 1 {
          StartsGrow(line, p + 1, n);
          StartsWord(line, p, p + 1);
          return 0;
        }
        argv[argc] := p;
        argc := argc + 1;
        ghost var s := p;
        p := SkipWord(buf, p, line);
        StartsWord(line, s, p);
      }
      argv[argc] := NULL;
      r := 1;
    }

    /** The inner loop that overwrites spaces with zeros up to the next word or the end. */
    method SkipSpaces(buf: array<char>, at: nat, ghost line: seq<char>) returns (p: nat)
      requires at <= |line| < buf.Length && buf[|line|] == '\0' && '\0' !in line
      requires buf[..at] == Cut(line)[..at] && buf[at..|line|] == line[at..]
      modifies buf
      ensures at <= p <= |line| && buf[|line|..] == old(buf[|line|..])
      ensures forall j :: at <= j < p ==> Space(line[j])
      ensures p == |line| || !Space(line[p])
      ensures buf[..p] == Cut(line)[..p] && buf[p..|line|] == line[p..]
    {
      p := at;
      while buf[p] != '\0' && Space(buf[p])
        invariant at <= p <= |line| && buf[|line|..] == old(buf[|line|..])
        invariant forall j :: at <= j < p ==> Space(line[j])
        invariant forall j :: 0 <= j < p ==> buf[j] == Cut(line)[j]
        invariant forall j :: p <= j < |line| ==> buf[j] == line[j]
        decreases |line| - p
      {
        assert buf[|line|] == buf[|line|..][0];
        buf[p] := '\0';
        p := p + 1;
      }
      assert buf[|line|] == buf[|line|..][0];
      assert p < |line| ==> line[p] in line;
      assert |buf[p..|line|]| == |line[p..]| && forall k :: 0 <= k < |line| - p ==> buf[p..|line|][k] == line[p + k];
    }

    /** The inner loop that passes over a word. */
    method SkipWord(buf: array<char>, at: nat, ghost line: seq<char>) returns (p: nat)
      requires at < |line| < buf.Length && buf[|line|] == '\0' && '\0' !in line && !Space(line[at])
      requires buf[..at] == Cut(line)[..at] && buf[at..|line|] == line[at..]
      ensures at < p <= |line| && (forall j :: at <= j < p ==> !Space(line[j]))
      ensures p == |line| || Space(line[p])
      ensures buf[..p] == Cut(line)[..p] && buf[p..|line|] == line[p..]
    {
      p := at;
      assert forall j :: at <= j < |line| ==> buf[j] == buf[at..|line|][j - at] == line[j];
      assert line[at] in line;
      while buf[p] != '\0' && !Space(buf[p])
        invariant at <= p <= |line| && (p == at ==> !Space(line[at]))
        invariant forall j :: at <= j < p ==> !Space(line[j])
        decreases |line| - p
      {
        p := p + 1;
      }
      assert p < |line| ==> line[p] in line;
      assert forall j :: 0 <= j < at ==> buf[j] == buf[..at][j] == Cut(line)[j];
    }
  }

  lemma NoStarts(line: seq<char>)
    ensures Starts(line, 0) == []
  {
  }

  /** Spaces begin no word. */
  lemma {:induction false} StartsSkip(line: seq<char>, n: nat, m: nat)
    requires n <= m <= |line| && forall j :: n <= j < m ==> Space(line[j])
    ensures Starts(line, m) == Starts(line, n)
  {
    if n < m {
      StartsSkip(line, n, m - 1);
    }
  }

  /** A word begins once. */
  lemma {:induction false} StartsWord(line: seq<char>, n: nat, m: nat)
    requires n < m <= |line| && IsStart(line, n) && forall j :: n <= j < m ==> !Space(line[j])
    ensures Starts(line, m) == Starts(line, n) + [n]
  {
    if n + 1 < m {
      StartsWord(line, n, m - 1);
    }
  }
}
