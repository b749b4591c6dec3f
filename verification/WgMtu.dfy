/** Which MTU takes effect: the configuration as patched (wgconfig.go) and as read
    afterwards by parseWGConfig (wireguard_linux.go), which ignores case and
    sections and lets the last assignment win. */
module WgMtu {
  import opened Text
  import opened Wrappers
  import opened WgConfig

  function BeforeEquals(s: string): string {
    if s == [] || s[0] == '=' then [] else [s[0]] + BeforeEquals(s[1..])
  }

  /** The value that a line assigns to the key mtu. */
  function Assigned(line: string): Option<string> {
    var t := TrimSpace(line);
    if t == "" || HasPrefix(t, "#") || HasPrefix(t, ";") then None
    else if HasPrefix(t, "[") && HasSuffix(t, "]") then None
    else if AfterEquals(t).None? then None
    else if ToLower(TrimSpace(BeforeEquals(t))) == "mtu" then Some(TrimSpace(AfterEquals(t).value))
    else None
  }

  function Read(lines: seq<string>): string {
    if lines == [] then ""
    else
      var a := Assigned(lines[|lines| - 1]);
      if a.Some? then a.value else Read(lines[..|lines| - 1])
  }

  /** The loop of parseWGConfig, as far as the MTU is concerned. */
  method ReadMtu(lines: seq<string>) returns (mtu: string)
    ensures mtu == Read(lines)
  {
    hide Assigned;
    mtu := "";
    for i := 0 to |lines|
      invariant mtu == Read(lines[..i])
    {
      assert lines[..i + 1][..i] == lines[..i];
      var a := Assigned(lines[i]);
      if a.Some? {
        mtu := a.value;
      }
    }
    assert lines[..|lines|] == lines;
  }

  /** Which lines assign the MTU, and what: `key = value` with the key mtu in any
      case, unless the line is a comment or a section in brackets. */
  lemma AssignsExactly(line: string, v: string)
    ensures Assigned(line) == Some(v) <==>
      var t := TrimSpace(line);
      && !HasPrefix(t, "#") && !HasPrefix(t, ";") && !(HasPrefix(t, "[") && HasSuffix(t, "]"))
      && exists key, value :: IsKey(t, key, value) && ToLower(TrimSpace(key)) == "mtu" && TrimSpace(value) == v
  {
    var t := TrimSpace(line);
    EqualsSplits(t);
    hide TrimSpace, HasPrefix, HasSuffix, ToLower;
    if AfterEquals(t).Some? {
      var key :| IsKey(t, key, AfterEquals(t).value);
      BeforeFirstEquals(key, AfterEquals(t).value);
    }
    if exists key, value :: IsKey(t, key, value) && ToLower(TrimSpace(key)) == "mtu" && TrimSpace(value) == v {
      var key, value :| IsKey(t, key, value) && ToLower(TrimSpace(key)) == "mtu" && TrimSpace(value) == v;
      FirstEquals(key, value);
      BeforeFirstEquals(key, value);
      assert t != "";
    }
    hide AfterEquals, BeforeEquals;
  }

  lemma ReadAppend(lines: seq<string>, line: string)
    ensures Read(lines + [line]) == if Assigned(line).Some? then Assigned(line).value else Read(lines)
  {
  }

  // ----- Which lines assign -----

  lemma TrimKeepsFirst(s: string)
    requires s != "" && !IsSpace(s[0])
    ensures TrimSpace(s) != "" && TrimSpace(s)[0] == s[0]
  {
    hide IsSpace;
    TrimRightKeepsFirst(s);
  }

  lemma {:induction false} TrimRightKeepsFirst(s: string)
    requires s != "" && !IsSpace(s[0])
    ensures TrimRight(s) != "" && TrimRight(s)[0] == s[0]
  {
    hide IsSpace;
    if |s| > 1 && IsSpace(s[|s| - 1]) {
      TrimRightKeepsFirst(s[..|s| - 1]);
    }
  }

  lemma LowerMtu(s: string)
    requires ToLower(s) == "mtu"
    ensures s != "" && (s[0] == 'm' || s[0] == 'M')
  {
  }

  /** Only lines that begin with an m assign the MTU. */
  lemma AssignsBeginWithM(line: string)
    ensures Assigned(line).Some? ==> TrimSpace(line) != "" && (TrimSpace(line)[0] == 'm' || TrimSpace(line)[0] == 'M')
  {
    var t := TrimSpace(line);
    TrimSpaceTrims(line);
    if Assigned(line).Some? {
      var key := BeforeEquals(t);
      LowerMtu(TrimSpace(key));
      assert key != "" && key[0] == t[0];
      hide TrimSpace, IsSpace;
      TrimKeepsFirst(key);
    }
  }

  /** The section line, the rewritten line and what it replaces assign nothing. */
  lemma OthersAssignNothing(line: string)
    requires KindOf(line) == Interface || KindOf(line) == Section || KindOf(line) == Default
    ensures Assigned(line).None?
  {
    AssignsBeginWithM(line);
    FirstOfPrefix(TrimSpace(line), "[");
    FirstOfPrefix(TrimSpace(line), "AllowedIPs");
    hide TrimSpace, Assigned, HasPrefix, AfterEquals, Everything;
    KindsAreDisjoint(TrimSpace(line));
    assert TrimSpace(line) == "[Interface]" ==> TrimSpace(line)[0] == '[';
  }

  lemma AllowedAssignsNothing()
    ensures Assigned(AllowedLine()).None?
  {
    AssignsBeginWithM(AllowedLine());
    KindOfAllowed();
    TrimmedAllowed();
    hide Assigned;
  }

  lemma TrimmedAllowed()
    ensures TrimSpace(AllowedLine()) != "" && TrimSpace(AllowedLine())[0] == 'A'
  {
    hide IsSpace;
    TrimKeepsA(AllowedLine());
  }

  lemma TrimKeepsA(s: string)
    requires s != "" && s[0] == 'A'
    ensures TrimSpace(s) != "" && TrimSpace(s)[0] == 'A'
  {
    TrimKeepsFirst(s);
  }

  function Wanted(mtu: int): string { Decimal(if mtu <= 0 then 1380 else mtu) }

  lemma {:induction false} BeforeFirstEquals(key: string, rest: string)
    requires '=' !in key
    ensures BeforeEquals(key + "=" + rest) == key
  {
    var s := key + "=" + rest;
    if key != "" {
      assert s[1..] == key[1..] + "=" + rest;
      BeforeFirstEquals(key[1..], rest);
    }
  }

  lemma MtuLineParts(digits: string)
    ensures var line := "MTU = " + digits;
            line[0] == 'M' && BeforeEquals(line) == "MTU " && AfterEquals(line) == Some(" " + digits)
  {
    var key := "MTU ";
    FirstEquals(key, " " + digits);
    BeforeFirstEquals(key, " " + digits);
    hide AfterEquals, BeforeEquals;
    assert "MTU = " + digits == key + "=" + (" " + digits);
  }

  lemma NotAComment(line: string)
    requires line != "" && line[0] == 'M'
    ensures !HasPrefix(line, "#") && !HasPrefix(line, ";") && !HasPrefix(line, "[")
  {
  }

  /** The inserted line assigns the requested value. */
  lemma MtuLineAssigns(mtu: int)
    ensures Assigned(MtuLine(mtu)) == Some(Wanted(mtu))
  {
    var digits, line := Wanted(mtu), MtuLine(mtu);
    hide Decimal;
    assert digits[0] in digits && digits[|digits| - 1] in digits;
    NothingToTrim("MTU = ", digits);
    LeadingSpace(digits);
    hide TrimSpace, IsSpace, ToLower;
    SpacedKey();
    MtuLineParts(digits);
    NotAComment(line);
    hide AfterEquals, BeforeEquals, HasPrefix;
  }

  lemma SpacedKey()
    ensures ToLower(TrimSpace("MTU ")) == "mtu"
  {
    SpaceIsSpace();
    assert "MTU "[..3] == "MTU";
    assert TrimRight("MTU ") == TrimRight("MTU") == "MTU";
    assert TrimLeft("MTU ") == "MTU ";
    assert ToLower("MTU") == "mtu";
  }

  // ----- When the requested MTU takes effect -----

  /** Line i brings the requested MTU: an [Interface] line, behind which it is
      inserted, or a surviving assignment of just that value. */
  ghost predicate Brings(lines: seq<string>, i: int, mtu: int)
    requires 0 <= i < |lines|
  {
    KindOf(lines[i]) == Interface || (!Dropped(lines, i) && Assigned(lines[i]) == Some(Wanted(mtu)))
  }

  /** Line i survives and assigns something else. */
  ghost predicate Overrides(lines: seq<string>, i: int, mtu: int)
    requires 0 <= i < |lines|
  {
    !Dropped(lines, i) && Assigned(lines[i]).Some? && Assigned(lines[i]).value != Wanted(mtu)
  }

  ghost predicate Decides(lines: seq<string>, i: int, mtu: int) {
    0 <= i < |lines| && Brings(lines, i, mtu) && forall j :: i < j < |lines| ==> !Overrides(lines, j, mtu)
  }

  ghost predicate Decided(lines: seq<string>, mtu: int) { exists i :: Decides(lines, i, mtu) }

  lemma DroppedPrefix(lines: seq<string>, line: string, i: nat)
    requires i < |lines|
    ensures Dropped(lines + [line], i) <==> Dropped(lines, i)
  {
    hide KindOf;
    forall h ensures OpenAt(lines + [line], h, i) <==> OpenAt(lines, h, i) {
      OpenPrefix(lines, [line], h, i);
    }
  }

  lemma SameBefore(lines: seq<string>, line: string, i: nat, mtu: int)
    requires i < |lines|
    ensures Brings(lines + [line], i, mtu) <==> Brings(lines, i, mtu)
    ensures Overrides(lines + [line], i, mtu) <==> Overrides(lines, i, mtu)
  {
    DroppedPrefix(lines, line, i);
    assert (lines + [line])[i] == lines[i];
    hide Dropped, Assigned, KindOf, Wanted;
  }

  /** One more line settles the matter, or leaves it as it was. */
  lemma DecidedNext(lines: seq<string>, line: string, mtu: int)
    ensures var all, n := lines + [line], |lines|;
            Decided(all, mtu) <==> Brings(all, n, mtu) || (Decided(lines, mtu) && !Overrides(all, n, mtu))
  {
    var all, n := lines + [line], |lines|;
    hide Brings, Overrides;
    forall i: nat | i < n
      ensures (Brings(all, i, mtu) <==> Brings(lines, i, mtu)) && (Overrides(all, i, mtu) <==> Overrides(lines, i, mtu))
    {
      SameBefore(lines, line, i, mtu);
    }
    if Brings(all, n, mtu) {
      assert Decides(all, n, mtu);
    }
    if Decided(lines, mtu) && !Overrides(all, n, mtu) {
      var i :| Decides(lines, i, mtu);
      assert Decides(all, i, mtu);
    }
    if Decided(all, mtu) && !Brings(all, n, mtu) {
      var i :| Decides(all, i, mtu);
      assert Decides(lines, i, mtu);
    }
  }

  lemma DroppedLast(lines: seq<string>, line: string)
    ensures Dropped(lines + [line], |lines|) <==> FlagAfter(lines) && (KindOf(line) == Dns || KindOf(line) == Mtu)
  {
    FlagIsSection(lines + [line]);
    AppendOne(lines, line, 0);
    hide KindOf, FlagAfter, Patched;
  }

  /** What the patch makes of one more line assigns what the line says. */
  lemma ReadNext(before: seq<string>, line: string, inside: bool, mtu: int)
    ensures Read(before + Emitted(line, inside, mtu)) ==
      if KindOf(line) == Interface then Wanted(mtu)
      else if inside && (KindOf(line) == Dns || KindOf(line) == Mtu) then Read(before)
      else if Assigned(line).Some? then Assigned(line).value else Read(before)
  {
    MtuLineAssigns(mtu);
    AllowedAssignsNothing();
    if KindOf(line) == Interface || KindOf(line) == Default {
      OthersAssignNothing(line);
    }
    hide KindOf, MtuLine, AllowedLine, Assigned, Read;
    match KindOf(line) {
      case Interface =>
        ReadAppend(before + [line], MtuLine(mtu));
        assert before + [line, MtuLine(mtu)] == before + [line] + [MtuLine(mtu)];
      case Default =>
        ReadAppend(before, AllowedLine());
      case _ =>
        ReadAppend(before, line);
        assert before + [] == before;
    }
  }

  lemma {:induction false} PatchedReads(lines: seq<string>, mtu: int)
    ensures Read(Patched(lines, mtu)) == Wanted(mtu) <==> Decided(lines, mtu)
  {
    hide *;
    if lines == [] {
      NothingReads(mtu);
    } else {
      var n := |lines| - 1;
      PatchedReads(lines[..n], mtu);
      assert lines == lines[..n] + [lines[n]];
      NextPatchedReads(lines[..n], lines[n], mtu);
    }
  }

  lemma NothingReads(mtu: int)
    ensures Read(Patched([], mtu)) != Wanted(mtu) && !Decided([], mtu)
  {
    WantedIsSomething(mtu);
    hide Wanted, Brings, Overrides;
  }

  lemma WantedIsSomething(mtu: int)
    ensures Wanted(mtu) != ""
  {
  }

  lemma NextPatchedReads(init: seq<string>, line: string, mtu: int)
    requires Read(Patched(init, mtu)) == Wanted(mtu) <==> Decided(init, mtu)
    ensures Read(Patched(init + [line], mtu)) == Wanted(mtu) <==> Decided(init + [line], mtu)
  {
    AppendOne(init, line, mtu);
    ReadNext(Patched(init, mtu), line, FlagAfter(init), mtu);
    DecidedNext(init, line, mtu);
    DroppedLast(init, line);
    assert (init + [line])[|init|] == line;
    if KindOf(line) == Interface {
      OthersAssignNothing(line);
    }
    hide Read, Patched, Wanted, Decided, Dropped, Assigned, KindOf, FlagAfter, Emitted;
  }

  /** Exactly when the configuration that is read back has the requested MTU: some
      [Interface] line, or surviving assignment of that value, is followed by no
      surviving assignment of another. An MTU line survives if it is outside the
      [Interface] sections or not spelled with capitals. */
  lemma RequestedMtuExactly(raw: string, mtu: int)
    ensures Read(Split(Patch(raw, mtu), '\n')) == Wanted(mtu) <==> Decided(Split(raw, '\n'), mtu)
  {
    hide *;
    PatchLines(raw, mtu);
    PatchedReads(Split(raw, '\n'), mtu);
  }

  /** For instance, an assignment in small letters in the section itself wins. */
  lemma SmallLettersWin(head: string, line: string, mtu: int)
    requires KindOf(head) == Interface && KindOf(line) == Other
    requires Assigned(line).Some? && Assigned(line).value != Wanted(mtu)
    ensures Read(Patched([head, line], mtu)) != Wanted(mtu)
  {
    PatchedReads([head, line], mtu);
    hide KindOf, Assigned, Patched, Read, Wanted;
    assert !Dropped([head, line], 1);
    assert Overrides([head, line], 1, mtu);
    forall i ensures !Decides([head, line], i, mtu) {
      assert i == 1 ==> !Brings([head, line], i, mtu);
    }
  }

  lemma SmallLetters()
    ensures KindOf("mtu=9000") == Other && Assigned("mtu=9000") == Some("9000")
  {
    var line := "mtu=9000";
    assert Trimmed(line) && Trimmed("mtu") && Trimmed("9000");
    TrimmedIsFixed(line);
    TrimmedIsFixed("mtu");
    TrimmedIsFixed("9000");
    assert ToLower("mtu") == "mtu";
    hide TrimSpace, IsSpace, ToLower, Trimmed;
    assert '=' !in "mtu" && line == "mtu" + "=" + "9000";
    FirstEquals("mtu", "9000");
    BeforeFirstEquals("mtu", "9000");
    hide AfterEquals, BeforeEquals;
    NotInterface(line);
    FirstOfPrefix(line, "#");
    FirstOfPrefix(line, ";");
    FirstOfPrefix(line, "[");
    FirstOfPrefix(line, "DNS");
    FirstOfPrefix(line, "MTU");
    FirstOfPrefix(line, "AllowedIPs");
    assert line[0] == 'm';
    hide HasPrefix;
  }
}
