// Text: the string operations the collector's code leans on, and an optional value.

module Text {

  datatype Option<+T> = None | Some(value: T)

  /** The characters JavaScript's trim() and \s drop. */
  predicate IsSpace(c: char) {
    var n := c as int;
    9 <= n <= 13 || n == 32 || n == 0xA0 || n == 0x1680 || 0x2000 <= n <= 0x200A ||
    n == 0x2028 || n == 0x2029 || n == 0x202F || n == 0x205F || n == 0x3000 || n == 0xFEFF
  }

  function TrimStart(s: string): (r: string)
    ensures |r| <= |s|
  {
    if s != "" && IsSpace(s[0]) then TrimStart(s[1..]) else s
  }

  function TrimEnd(s: string): string {
    if s != "" && IsSpace(s[|s| - 1]) then TrimEnd(s[..|s| - 1]) else s
  }

  function Trim(s: string): string {
    TrimEnd(TrimStart(s))
  }

  /** Nothing but space. */
  predicate Blank(s: string) {
    forall i :: 0 <= i < |s| ==> IsSpace(s[i])
  }

  /** Empty, or without space at either end. */
  predicate IsCore(s: string) {
    s != "" ==> !IsSpace(s[0]) && !IsSpace(s[|s| - 1])
  }

  /** The twenty-five of them, one by one. */
  lemma SpacesAre(c: char)
    ensures IsSpace(c) <==> c as int in [
      9, 10, 11, 12, 13, 32, 160, 5760, 8192, 8193, 8194, 8195, 8196, 8197, 8198, 8199, 8200, 8201, 8202,
      8232, 8233, 8239, 8287, 12288, 65279]
  {
  }

  lemma {:induction false} DropsBlanks(gap: string, rest: string)
    requires Blank(gap) && rest != "" && !IsSpace(rest[0])
    ensures TrimStart(gap + rest) == rest
  {
    hide IsSpace;
    if gap == "" {
      assert gap + rest == rest;
    } else {
      assert (gap + rest)[1..] == gap[1..] + rest;
      DropsBlanks(gap[1..], rest);
    }
  }

  lemma {:induction false} DropsTrailing(rest: string, gap: string)
    requires Blank(gap) && rest != "" && !IsSpace(rest[|rest| - 1])
    ensures TrimEnd(rest + gap) == rest
  {
    hide IsSpace;
    if gap == "" {
      assert rest + gap == rest;
    } else {
      var s := rest + gap;
      assert s[..|s| - 1] == rest + gap[..|gap| - 1];
      assert s[|s| - 1] == gap[|gap| - 1];
      DropsTrailing(rest, gap[..|gap| - 1]);
    }
  }

  lemma {:induction false} BlankVanishes(s: string)
    ensures Trim(s) == "" <==> Blank(s)
  {
    hide IsSpace, TrimEnd;
    if s == "" {
      NothingToTrim();
    } else if IsSpace(s[0]) {
      BlankVanishes(s[1..]);
    } else {
      TrimEndKeeps(s);
    }
  }

  lemma NothingToTrim()
    ensures Trim("") == ""
  {
  }

  lemma {:induction false} TrimEndKeeps(s: string)
    requires s != "" && !IsSpace(s[0])
    ensures TrimEnd(s) != ""
  {
    hide IsSpace;
    if IsSpace(s[|s| - 1]) { TrimEndKeeps(s[..|s| - 1]); }
  }

  /** Trimming a padded core gives the core back. */
  lemma TrimOfPadded(lead: string, core: string, trail: string)
    requires Blank(lead) && IsCore(core) && Blank(trail)
    ensures Trim(lead + core + trail) == core
  {
    hide IsSpace, TrimStart, TrimEnd;
    if core == "" {
      assert lead + core + trail == lead + trail;
      BlankVanishes(lead + trail);
    } else {
      DropsBlanks(lead, core + trail);
      assert lead + core + trail == lead + (core + trail);
      DropsTrailing(core, trail);
    }
  }

  lemma {:induction false} StartSplits(s: string) returns (lead: string)
    ensures Blank(lead) && s == lead + TrimStart(s) && (TrimStart(s) != "" ==> !IsSpace(TrimStart(s)[0]))
  {
    hide IsSpace;
    if s != "" && IsSpace(s[0]) {
      var rest := StartSplits(s[1..]);
      lead := [s[0]] + rest;
    } else {
      lead := "";
    }
  }

  lemma {:induction false} EndSplits(s: string) returns (trail: string)
    ensures Blank(trail) && s == TrimEnd(s) + trail && (TrimEnd(s) != "" ==> !IsSpace(TrimEnd(s)[|TrimEnd(s)| - 1]))
  {
    hide IsSpace;
    if s != "" && IsSpace(s[|s| - 1]) {
      var rest := EndSplits(s[..|s| - 1]);
      trail := rest + [s[|s| - 1]];
    } else {
      trail := "";
    }
  }

  /** And every text is a padded core. */
  lemma TrimSplits(s: string) returns (lead: string, trail: string)
    ensures Blank(lead) && Blank(trail) && IsCore(Trim(s)) && s == lead + Trim(s) + trail
  {
    hide IsSpace, TrimStart, TrimEnd;
    lead := StartSplits(s);
    trail := EndSplits(TrimStart(s));
    if Trim(s) != "" { assert Trim(s)[0] == TrimStart(s)[0]; }
  }

  /** Case folding of the ASCII letters. */
  function LowerChar(c: char): char {
    if 'A' <= c <= 'Z' then (c as int + 32) as char else c
  }

  function Lower(s: string): string {
    seq(|s|, i requires 0 <= i < |s| => LowerChar(s[i]))
  }

  // ---- positions -------------------------------------------------------------

  /** Positions below n in increasing order. */
  predicate Rising(idx: seq<nat>, n: nat) {
    (forall k :: 0 <= k < |idx| ==> idx[k] < n) && forall a, b :: 0 <= a < b < |idx| ==> idx[a] < idx[b]
  }

  /** The same positions, one further on. */
  function Shifted(idx: seq<nat>): (r: seq<nat>)
    ensures |r| == |idx| && forall k :: 0 <= k < |idx| ==> r[k] == idx[k] + 1
  {
    if idx == [] then [] else [idx[0] + 1] + Shifted(idx[1..])
  }

  lemma RisingShift(idx: seq<nat>, n: nat)
    requires Rising(idx, n)
    ensures Rising(Shifted(idx), n + 1) && Rising([0] + Shifted(idx), n + 1)
  {
  }

  lemma ShiftedHas(idx: seq<nat>, i: nat)
    ensures i in Shifted(idx) <==> i > 0 && i - 1 in idx
  {
    if i > 0 && i - 1 in idx {
      var k :| 0 <= k < |idx| && idx[k] == i - 1;
      assert Shifted(idx)[k] == i;
    }
  }
}
