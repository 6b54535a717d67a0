/** Text files as strings, read line by line with fgets into a buffer of 512. */
module TextFiles {
  import opened CStrings

  const LINE_CAP := 512

  /** No line feeds and carriage returns. */
  predicate OneLine(s: string) {
    forall i :: 0 <= i < |s| ==> s[i] != '\n' && s[i] != '\r'
  }

  /** No line feeds. */
  predicate NoLf(s: string) {
    forall i :: 0 <= i < |s| ==> s[i] != '\n'
  }

  /** A line of a file. */
  function L(t: string): string {
    t + ['\n']
  }

  /** Where a read of at most `room` characters ends: behind a line feed, or when they are read. */
  function LineEnd(s: string, i: nat, room: nat): (j: nat)
    requires i <= |s|
    ensures i <= j <= |s| && j <= i + room
    ensures i < |s| && room > 0 ==> i < j
    decreases room
  {
    if i == |s| || room == 0 then i
    else if s[i] == '\n' then i + 1
    else LineEnd(s, i + 1, room - 1)
  }

  /** fgets: where what is read from `i` on ends. */
  function NextLine(s: string, i: nat): (j: nat)
    requires i <= |s|
    ensures i <= j <= |s| && j <= i + LINE_CAP - 1
    ensures i < |s| ==> i < j
  {
    LineEnd(s, i, LINE_CAP - 1)
  }

  lemma {:induction false} LineIs(s: string, i: nat, t: string, room: nat)
    requires At(s, i, L(t)) && NoLf(t) && |t| < room
    ensures LineEnd(s, i, room) == i + |t| + 1
    decreases |t|
  {
    assert s[i] == s[i..i + |L(t)|][0] == L(t)[0];
    if t != "" {
      AtSplit(s, i, t[..1], L(t[1..]));
      assert t[..1] + L(t[1..]) == L(t);
      LineIs(s, i + 1, t[1..], room - 1);
    }
  }

  /** A line that fits the buffer is read as a whole. */
  lemma LineFits(s: string, i: nat, t: string)
    requires At(s, i, L(t)) && NoLf(t) && |t| < LINE_CAP - 1
    ensures NextLine(s, i) == i + |t| + 1 && s[i..i + |t| + 1] == L(t)
  {
    LineIs(s, i, t, LINE_CAP - 1);
  }

  /** Of a longer line 511 characters are read at a time. */
  lemma {:induction false} LongLine(s: string, i: nat, room: nat)
    requires i + room <= |s| && forall k :: i <= k < i + room ==> s[k] != '\n'
    ensures LineEnd(s, i, room) == i + room
    ensures room == 511 ==> NextLine(s, i) == i + 511
    decreases room
  {
    if room > 0 {
      LongLine(s, i + 1, room - 1);
    }
  }
}
