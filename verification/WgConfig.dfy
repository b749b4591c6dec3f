/** Rewriting the WireGuard configuration (patchWGConfig, wgconfig.go): lines
    driven by a section flag. */
module WgConfig {
  import opened Text
  import opened Wrappers
  import Routes = SplitTunnel

  function Halves(): string { "0.0.0.0/1, 128.0.0.0/1" }

  function AllowedLine(): string { "AllowedIPs = " + Halves() }

  datatype Kind = Interface | Section | Dns | Mtu | Default | Other

  /** What follows the first '='. */
  function AfterEquals(s: string): Option<string> {
    if s == [] then None
    else if s[0] == '=' then Some(s[1..])
    else AfterEquals(s[1..])
  }

  /** The spellings of "everything" that are rewritten. */
  predicate Everything(ips: string) {
    ips == "0.0.0.0/0" || ips == "0.0.0.0/0, ::/0" || ips == "0.0.0.0/0,::/0"
  }

  predicate AllowsEverything(t: string) {
    HasPrefix(t, "AllowedIPs") && AfterEquals(t).Some? && Everything(TrimSpace(AfterEquals(t).value))
  }

  function KindOf(line: string): Kind {
    var t := TrimSpace(line);
    if t == "[Interface]" then Interface
    else if HasPrefix(t, "[") then Section
    else if HasPrefix(t, "DNS") then Dns
    else if HasPrefix(t, "MTU") then Mtu
    else if AllowsEverything(t) then Default
    else Other
  }

  function MtuLine(mtu: int): string { "MTU = " + Decimal(if mtu <= 0 then 1380 else mtu) }

  // ----- Line by line -----

  function Flag(line: string, inside: bool): bool {
    var k := KindOf(line);
    k == Interface || (k != Section && inside)
  }

  function Emitted(line: string, inside: bool, mtu: int): seq<string> {
    match KindOf(line)
    case Interface => [line, MtuLine(mtu)]
    case Default => [AllowedLine()]
    case Dns => if inside then [] else [line]
    case Mtu => if inside then [] else [line]
    case _ => [line]
  }

  /** The section flag after some lines. */
  function FlagAfter(lines: seq<string>): bool {
    if lines == [] then false
    else Flag(lines[|lines| - 1], FlagAfter(lines[..|lines| - 1]))
  }

  function Patched(lines: seq<string>, mtu: int): seq<string> {
    if lines == [] then []
    else
      var init := lines[..|lines| - 1];
      Patched(init, mtu) + Emitted(lines[|lines| - 1], FlagAfter(init), mtu)
  }

  function Patch(raw: string, mtu: int): string { Join(Patched(Split(raw, '\n'), mtu), '\n') }

  lemma NextLine(lines: seq<string>, i: nat, mtu: int)
    requires i < |lines|
    ensures FlagAfter(lines[..i + 1]) == Flag(lines[i], FlagAfter(lines[..i]))
    ensures Patched(lines[..i + 1], mtu) == Patched(lines[..i], mtu) + Emitted(lines[i], FlagAfter(lines[..i]), mtu)
  {
    assert lines[..i + 1][..i] == lines[..i];
  }

  /** patchWGConfig as written. */
  method PatchWgConfig(raw: string, mtu: int) returns (r: string)
    ensures r == Patch(raw, mtu)
  {
    hide MtuLine, Split, Join, Emitted, Flag, AllowedLine;
    var mtuLine := MtuLine(mtu);
    var lines := Split(raw, '\n');
    var out: seq<string> := [];
    var inInterface := false;
    for i := 0 to |lines|
      invariant out == Patched(lines[..i], mtu) && inInterface == FlagAfter(lines[..i])
    {
      NextLine(lines, i, mtu);
      var emitted;
      inInterface, emitted := PatchLine(lines[i], inInterface, mtuLine, mtu);
      out := out + emitted;
    }
    assert lines[..|lines|] == lines;
    r := Join(out, '\n');
  }

  /** One turn of the loop, tests in the order of the code. */
  method PatchLine(line: string, inside: bool, mtuLine: string, mtu: int) returns (inInterface: bool, out: seq<string>)
    requires mtuLine == MtuLine(mtu)
    ensures inInterface == Flag(line, inside) && out == Emitted(line, inside, mtu)
  {
    var trimmed := TrimSpace(line);
    KindsAreDisjoint(trimmed);
    inInterface := inside;
    if trimmed == "[Interface]" {
      inInterface := true;
    } else if HasPrefix(trimmed, "[") {
      inInterface := false;
    }
    if inInterface && HasPrefix(trimmed, "DNS") {
      return inInterface, [];
    }
    if HasPrefix(trimmed, "AllowedIPs") {
      var val := AfterEquals(trimmed);
      if val.Some? {
        var ips := TrimSpace(val.value);
        if Everything(ips) {
          return inInterface, [AllowedLine()];
        }
      }
    }
    if trimmed == "[Interface]" {
      return inInterface, [line, mtuLine];
    }
    if inInterface && HasPrefix(trimmed, "MTU") {
      return inInterface, [];
    }
    return inInterface, [line];
  }

  lemma KindsAreDisjoint(t: string)
    ensures HasPrefix("[Interface]", "[")
    ensures HasPrefix(t, "[") ==> !HasPrefix(t, "DNS") && !HasPrefix(t, "MTU") && !HasPrefix(t, "AllowedIPs")
    ensures HasPrefix(t, "DNS") ==> !HasPrefix(t, "MTU") && !HasPrefix(t, "AllowedIPs")
    ensures HasPrefix(t, "MTU") ==> !HasPrefix(t, "AllowedIPs")
  {
    FirstOfPrefix(t, "[");
    FirstOfPrefix(t, "DNS");
    FirstOfPrefix(t, "MTU");
    FirstOfPrefix(t, "AllowedIPs");
    assert "[Interface]"[..1] == "[";
    hide HasPrefix;
  }

  /** Which lines open a section, and which may be dropped, by their trimmed text. */
  lemma KindExactly(line: string)
    ensures var t := TrimSpace(line);
            && (KindOf(line) == Interface <==> t == "[Interface]")
            && (KindOf(line) == Section <==> HasPrefix(t, "[") && t != "[Interface]")
            && (KindOf(line) == Dns <==> HasPrefix(t, "DNS"))
            && (KindOf(line) == Mtu <==> HasPrefix(t, "MTU"))
  {
    KindsAreDisjoint(TrimSpace(line));
    hide TrimSpace, HasPrefix, AllowsEverything;
  }

  /** The lines the patch writes. */
  lemma WrittenLines(mtu: int)
    ensures AllowedLine() == "AllowedIPs = 0.0.0.0/1, 128.0.0.0/1"
    ensures MtuLine(mtu) == if mtu > 0 then "MTU = " + Decimal(mtu) else "MTU = 1380"
  {
    assert Decimal(1380) == "1380" by { DefaultMtu(); }
    hide Decimal;
  }

  lemma DefaultMtu()
    ensures Decimal(1380) == "1380"
  {
  }

  lemma FirstOfPrefix(t: string, p: string)
    requires p != ""
    ensures HasPrefix(t, p) ==> t != "" && t[0] == p[0]
  {
  }

  // ----- The two lines the patch writes -----

  lemma StartsWith(p: string, rest: string)
    ensures HasPrefix(p + rest, p)
  {
  }

  lemma KindOfMtuLine(mtu: int)
    ensures KindOf(MtuLine(mtu)) == Mtu && '\n' !in MtuLine(mtu)
  {
    var digits := Decimal(if mtu <= 0 then 1380 else mtu);
    var line := MtuLine(mtu);
    hide Decimal;
    assert digits[|digits| - 1] in digits;
    NothingToTrim("MTU = ", digits);
    assert line == "MTU" + (" = " + digits);
    hide TrimSpace, IsSpace;
    StartsWith("MTU", " = " + digits);
    KindsAreDisjoint(line);
    NotInterface(line);
  }

  lemma NothingToTrim(a: string, b: string)
    requires a != "" && b != "" && !IsSpace(a[0]) && !IsSpace(b[|b| - 1])
    ensures TrimSpace(a + b) == a + b
  {
  }

  lemma NotInterface(t: string)
    requires t != "" && t[0] != '['
    ensures t != "[Interface]"
  {
  }

  lemma {:induction false} FirstEquals(a: string, rest: string)
    requires '=' !in a
    ensures AfterEquals(a + "=" + rest) == Some(rest)
  {
    var s := a + "=" + rest;
    if a == "" {
      assert s[1..] == rest;
    } else {
      assert s[1..] == a[1..] + "=" + rest;
      FirstEquals(a[1..], rest);
    }
  }

  lemma LeadingSpace(s: string)
    requires Trimmed(s)
    ensures TrimSpace(" " + s) == s
  {
    SpaceIsSpace();
    assert (" " + s)[1..] == s;
    assert TrimLeft(" " + s) == TrimLeft(s) == s;
  }

  lemma AllowedIpsValue(v: string)
    ensures AfterEquals("AllowedIPs = " + v) == Some(" " + v)
    ensures HasPrefix("AllowedIPs = " + v, "AllowedIPs")
  {
    var key := "AllowedIPs ";
    FirstEquals(key, " " + v);
    StartsWith("AllowedIPs", " = " + v);
    hide AfterEquals, HasPrefix;
    assert "AllowedIPs = " + v == key + "=" + (" " + v);
    assert "AllowedIPs = " + v == "AllowedIPs" + (" = " + v);
  }

  /** An AllowedIPs line is left alone unless it says "everything". */
  lemma KindOfAllowedIps(v: string)
    requires v != "" && Trimmed(v)
    ensures KindOf("AllowedIPs = " + v) == if Everything(v) then Default else Other
  {
    var line := "AllowedIPs = " + v;
    NothingToTrim("AllowedIPs = ", v);
    LeadingSpace(v);
    AllowedIpsValue(v);
    NotInterface(line);
    hide IsSpace, Trimmed, TrimSpace, Everything, AfterEquals, HasPrefix;
    KindsAreDisjoint(line);
  }

  lemma {:induction false} EqualsSplits(t: string)
    ensures AfterEquals(t).None? <==> '=' !in t
    ensures AfterEquals(t).Some? ==> exists key :: IsKey(t, key, AfterEquals(t).value)
  {
    if t != "" {
      if t[0] == '=' {
        assert t == "" + "=" + t[1..];
        assert IsKey(t, "", t[1..]);
      } else {
        EqualsSplits(t[1..]);
        if AfterEquals(t).Some? {
          var key :| IsKey(t[1..], key, AfterEquals(t).value);
          assert t == [t[0]] + t[1..];
          assert IsKey(t, [t[0]] + key, AfterEquals(t).value);
        }
      }
    }
  }

  /** `key` stands before the first '=' of `t`, `value` behind it. */
  predicate IsKey(t: string, key: string, value: string) { '=' !in key && t == key + "=" + value }

  /** Which lines are rewritten: those that begin with AllowedIPs and whose text
      behind the first '=', trimmed, is one of the spellings of "everything". */
  lemma RewrittenExactly(line: string)
    ensures KindOf(line) == Default <==>
      HasPrefix(TrimSpace(line), "AllowedIPs")
      && exists key, value :: IsKey(TrimSpace(line), key, value)
           && TrimSpace(value) in {"0.0.0.0/0", "0.0.0.0/0, ::/0", "0.0.0.0/0,::/0"}
  {
    assert forall v :: Everything(v) <==> v in {"0.0.0.0/0", "0.0.0.0/0, ::/0", "0.0.0.0/0,::/0"};
    var t := TrimSpace(line);
    KindsAreDisjoint(t);
    EqualsSplits(t);
    FirstOfPrefix(t, "AllowedIPs");
    if t != "" && t[0] != '[' {
      NotInterface(t);
    }
    hide TrimSpace, HasPrefix, Everything;
    if exists key, value :: IsKey(t, key, value) && Everything(TrimSpace(value)) {
      var key, value :| IsKey(t, key, value) && Everything(TrimSpace(value));
      FirstEquals(key, value);
    }
  }

  /** The rewritten line is not rewritten again. */
  lemma KindOfAllowed()
    ensures KindOf(AllowedLine()) == Other && '\n' !in AllowedLine()
  {
    var v := Halves();
    assert Trimmed(v) && '\n' !in v && !Everything(v);
    hide Trimmed, Everything, Halves, KindOf;
    KindOfAllowedIps(v);
    assert '\n' !in "AllowedIPs = ";
  }

  // ----- Idempotence -----

  lemma AppendOne(lines: seq<string>, line: string, mtu: int)
    ensures FlagAfter(lines + [line]) == Flag(line, FlagAfter(lines))
    ensures Patched(lines + [line], mtu) == Patched(lines, mtu) + Emitted(line, FlagAfter(lines), mtu)
  {
  }

  /** A second pass leaves alone what the first pass makes of one more line. */
  lemma LineTwice(before: seq<string>, line: string, mtu: int)
    requires Patched(before, mtu) == before
    ensures var inside := FlagAfter(before);
            var after := before + Emitted(line, inside, mtu);
            FlagAfter(after) == Flag(line, inside) && Patched(after, mtu) == after
  {
    KindOfMtuLine(mtu);
    KindOfAllowed();
    hide KindOf, MtuLine, AllowedLine, FlagAfter, Patched;
    match KindOf(line) {
      case Interface =>
        AppendOne(before, line, mtu);
        AppendOne(before + [line], MtuLine(mtu), mtu);
        assert before + [line, MtuLine(mtu)] == before + [line] + [MtuLine(mtu)];
        assert before + [line, MtuLine(mtu)] == before + [line, MtuLine(mtu)] + [];
      case Default =>
        AppendOne(before, AllowedLine(), mtu);
      case _ =>
        AppendOne(before, line, mtu);
        assert before + [] == before;
    }
  }

  lemma {:induction false} PatchedTwice(lines: seq<string>, mtu: int)
    ensures FlagAfter(Patched(lines, mtu)) == FlagAfter(lines)
    ensures Patched(Patched(lines, mtu), mtu) == Patched(lines, mtu)
  {
    if lines != [] {
      var n := |lines| - 1;
      PatchedTwice(lines[..n], mtu);
      LineTwice(Patched(lines[..n], mtu), lines[n], mtu);
      hide Emitted, Flag;
    }
  }

  lemma EmittedIsClean(line: string, inside: bool, mtu: int)
    requires '\n' !in line
    ensures Free(Emitted(line, inside, mtu), '\n')
    ensures !inside ==> Emitted(line, inside, mtu) != []
  {
    KindOfMtuLine(mtu);
    KindOfAllowed();
    hide KindOf, MtuLine, AllowedLine;
  }

  lemma {:induction false} PatchedIsClean(lines: seq<string>, mtu: int)
    requires Free(lines, '\n')
    ensures Free(Patched(lines, mtu), '\n')
    ensures lines != [] ==> Patched(lines, mtu) != []
  {
    if lines != [] {
      var n := |lines| - 1;
      hide Emitted, Flag;
      assert lines[n] in lines;
      assert forall l :: l in lines[..n] ==> l in lines;
      PatchedIsClean(lines[..n], mtu);
      EmittedIsClean(lines[n], FlagAfter(lines[..n]), mtu);
    }
  }

  /** The lines of the patched text are the patched lines. */
  lemma PatchLines(raw: string, mtu: int)
    ensures Split(Patch(raw, mtu), '\n') == Patched(Split(raw, '\n'), mtu)
  {
    hide Split, Join, Patched;
    SplitParts(raw, '\n');
    PatchedIsClean(Split(raw, '\n'), mtu);
    SplitJoin(Patched(Split(raw, '\n'), mtu), '\n');
  }

  /** Patching a patched configuration changes nothing, whatever the text. */
  lemma PatchIsIdempotent(raw: string, mtu: int)
    ensures Patch(Patch(raw, mtu), mtu) == Patch(raw, mtu)
  {
    hide Split, Join, Patched;
    PatchLines(raw, mtu);
    PatchedTwice(Split(raw, '\n'), mtu);
  }

  // ----- What the output looks like -----

  predicate Bracket(line: string) { KindOf(line) == Interface || KindOf(line) == Section }

  /** Line i belongs to the [Interface] section opened at line h. */
  predicate OpenAt(lines: seq<string>, h: int, i: int) {
    && 0 <= h <= i < |lines| && KindOf(lines[h]) == Interface
    && forall j :: h < j <= i ==> !Bracket(lines[j])
  }

  ghost predicate InSection(lines: seq<string>, i: int) { exists h :: OpenAt(lines, h, i) }

  lemma OpenPrefix(a: seq<string>, b: seq<string>, h: int, k: int)
    requires k < |a|
    ensures OpenAt(a + b, h, k) <==> OpenAt(a, h, k)
  {
    hide KindOf, Bracket;
    var all := a + b;
    if 0 <= h <= k {
      assert all[h] == a[h];
      forall j | h < j <= k ensures Bracket(all[j]) <==> Bracket(a[j]) {
        assert all[j] == a[j];
      }
    }
  }

  lemma OpenNext(lines: seq<string>, h: int, k: int)
    requires h < k < |lines|
    ensures OpenAt(lines, h, k) <==> OpenAt(lines, h, k - 1) && !Bracket(lines[k])
  {
    hide KindOf, Bracket;
  }

  /** A line that is not [Interface] belongs to the section of the line before,
      unless it opens another section. */
  lemma SectionGoesOn(init: seq<string>, line: string)
    requires KindOf(line) != Interface
    ensures InSection(init + [line], |init|) <==> KindOf(line) != Section && InSection(init, |init| - 1)
  {
    hide KindOf;
    var lines, n := init + [line], |init|;
    if InSection(lines, n) {
      var h :| OpenAt(lines, h, n);
      OpenNext(lines, h, n);
      OpenPrefix(init, [line], h, n - 1);
      assert OpenAt(init, h, |init| - 1);
    }
    if KindOf(line) != Section && InSection(init, |init| - 1) {
      var h :| OpenAt(init, h, |init| - 1);
      OpenPrefix(init, [line], h, n - 1);
      OpenNext(lines, h, n);
      assert OpenAt(lines, h, n);
    }
  }

  /** The flag is membership in an [Interface] section. */
  lemma {:induction false} FlagIsSection(lines: seq<string>)
    ensures FlagAfter(lines) <==> InSection(lines, |lines| - 1)
  {
    hide KindOf;
    if lines != [] {
      var n := |lines| - 1;
      FlagIsSection(lines[..n]);
      assert lines == lines[..n] + [lines[n]];
      if KindOf(lines[n]) == Interface {
        assert OpenAt(lines, n, n);
      } else {
        SectionGoesOn(lines[..n], lines[n]);
      }
    }
  }

  /** A line the patch drops: an MTU or DNS line of an [Interface] section. */
  ghost predicate Dropped(lines: seq<string>, i: int)
    requires 0 <= i < |lines|
  {
    InSection(lines, i) && (KindOf(lines[i]) == Dns || KindOf(lines[i]) == Mtu)
  }

  ghost function Kept(lines: seq<string>): seq<string> {
    if lines == [] then []
    else
      var n := |lines| - 1;
      Kept(lines[..n]) + if Dropped(lines, n) then [] else [lines[n]]
  }

  function Rewritten(line: string): string { if KindOf(line) == Default then AllowedLine() else line }

  function RewriteAll(lines: seq<string>): (r: seq<string>)
    ensures |r| == |lines|
  {
    seq(|lines|, i requires 0 <= i < |lines| => Rewritten(lines[i]))
  }

  lemma KeptAppend(lines: seq<string>, line: string)
    ensures Kept(lines + [line])
         == Kept(lines) + if Flag(line, FlagAfter(lines)) && KindOf(line) in {Dns, Mtu} then [] else [line]
  {
    var all := lines + [line];
    hide KindOf;
    assert all[..|lines|] == lines;
    FlagIsSection(all);
  }

  lemma RewriteAppend(lines: seq<string>, line: string)
    ensures RewriteAll(lines + [line]) == RewriteAll(lines) + [Rewritten(line)]
  {
  }

  /** The lines that are not dropped come through in order, with default
      AllowedIPs rewritten. */
  lemma {:induction false} OrderIsKept(lines: seq<string>, mtu: int)
    ensures Kept(Patched(lines, mtu)) == RewriteAll(Kept(lines))
  {
    hide Emitted, FlagAfter, KindOf, Dropped, Rewritten;
    if lines != [] {
      var n := |lines| - 1;
      OrderIsKept(lines[..n], mtu);
      assert lines == lines[..n] + [lines[n]];
      hide *;
      NextOrderIsKept(lines[..n], lines[n], mtu);
    }
  }

  lemma NextOrderIsKept(init: seq<string>, line: string, mtu: int)
    requires Kept(Patched(init, mtu)) == RewriteAll(Kept(init))
    ensures Kept(Patched(init + [line], mtu)) == RewriteAll(Kept(init + [line]))
  {
    hide *;
    PatchedTwice(init, mtu);
    AppendOne(init, line, mtu);
    LineIsKept(Patched(init, mtu), line, mtu);
    KeptAppend(init, line);
    DropsInside(line, FlagAfter(init));
    RewriteAppend(Kept(init), line);
    assert RewriteAll(Kept(init)) + [] == RewriteAll(Kept(init));
    assert Kept(init) + [] == Kept(init);
  }

  lemma DropsInside(line: string, inside: bool)
    ensures Flag(line, inside) && KindOf(line) in {Dns, Mtu} <==> inside && KindOf(line) in {Dns, Mtu}
  {
  }

  lemma LineIsKept(before: seq<string>, line: string, mtu: int)
    ensures var inside := FlagAfter(before);
            Kept(before + Emitted(line, inside, mtu))
            == Kept(before) + if inside && KindOf(line) in {Dns, Mtu} then [] else [Rewritten(line)]
  {
    KindOfMtuLine(mtu);
    KindOfAllowed();
    hide KindOf, MtuLine, AllowedLine, FlagAfter, Kept;
    match KindOf(line) {
      case Interface =>
        KeptAppend(before, line);
        AppendOne(before, line, mtu);
        KeptAppend(before + [line], MtuLine(mtu));
        assert before + [line, MtuLine(mtu)] == before + [line] + [MtuLine(mtu)];
      case Default =>
        KeptAppend(before, AllowedLine());
      case _ =>
        KeptAppend(before, line);
        assert before + [] == before;
    }
  }

  /** Every [Interface] line is followed by the requested MTU line, and the
      section holds no other MTU line and no DNS line. */
  ghost predicate SectionsClean(lines: seq<string>, mtu: int) {
    forall h, k :: OpenAt(lines, h, k) ==>
      h + 1 < |lines| && lines[h + 1] == MtuLine(mtu)
      && (k > h ==> KindOf(lines[k]) != Dns && (KindOf(lines[k]) == Mtu <==> k == h + 1))
  }

  lemma HeaderStaysClean(before: seq<string>, line: string, mtu: int)
    requires SectionsClean(before, mtu) && KindOf(line) == Interface
    ensures SectionsClean(before + [line, MtuLine(mtu)], mtu)
  {
    KindOfMtuLine(mtu);
    hide KindOf, MtuLine;
    var tail := [line, MtuLine(mtu)];
    var all, n := before + tail, |before|;
    forall h, k | OpenAt(all, h, k)
      ensures h + 1 < |all| && all[h + 1] == MtuLine(mtu)
      ensures k > h ==> KindOf(all[k]) != Dns && (KindOf(all[k]) == Mtu <==> k == h + 1)
    {
      if k < n {
        OpenPrefix(before, tail, h, k);
      } else {
        assert Bracket(all[n]);
        assert h >= n;
      }
    }
  }

  lemma LineStaysClean(before: seq<string>, line: string, mtu: int)
    requires SectionsClean(before, mtu) && KindOf(line) != Interface
    requires FlagAfter(before) ==> KindOf(line) != Dns && KindOf(line) != Mtu
    ensures SectionsClean(before + [line], mtu)
  {
    FlagIsSection(before);
    hide KindOf, MtuLine, FlagAfter;
    var all, n := before + [line], |before|;
    forall h, k | OpenAt(all, h, k)
      ensures h + 1 < |all| && all[h + 1] == MtuLine(mtu)
      ensures k > h ==> KindOf(all[k]) != Dns && (KindOf(all[k]) == Mtu <==> k == h + 1)
    {
      if k < n {
        OpenPrefix(before, [line], h, k);
      } else {
        assert h < n;
        OpenNext(all, h, n);
        OpenPrefix(before, [line], h, n - 1);
        assert OpenAt(before, h, n - 1);
      }
    }
  }

  lemma EmittedStaysClean(before: seq<string>, line: string, mtu: int)
    requires SectionsClean(before, mtu)
    ensures SectionsClean(before + Emitted(line, FlagAfter(before), mtu), mtu)
  {
    KindOfAllowed();
    hide KindOf, MtuLine, AllowedLine, SectionsClean, FlagAfter;
    match KindOf(line) {
      case Interface => HeaderStaysClean(before, line, mtu);
      case Default => LineStaysClean(before, AllowedLine(), mtu);
      case _ =>
        assert before + [] == before;
        if !(FlagAfter(before) && KindOf(line) in {Dns, Mtu}) {
          LineStaysClean(before, line, mtu);
        }
    }
  }

  lemma {:induction false} SectionsComeOutClean(lines: seq<string>, mtu: int)
    ensures SectionsClean(Patched(lines, mtu), mtu)
  {
    hide Emitted, Flag, FlagAfter, KindOf, MtuLine;
    if lines != [] {
      var n := |lines| - 1;
      SectionsComeOutClean(lines[..n], mtu);
      PatchedTwice(lines[..n], mtu);
      EmittedStaysClean(Patched(lines[..n], mtu), lines[n], mtu);
    }
  }

  /** The patched text, in terms of the given one: [Interface] sections are clean
      and every line that is not dropped comes through in order. */
  lemma PatchKeepsAndCleans(raw: string, mtu: int)
    ensures var before, after := Split(raw, '\n'), Split(Patch(raw, mtu), '\n');
            SectionsClean(after, mtu) && Kept(after) == RewriteAll(Kept(before))
  {
    hide *;
    PatchLines(raw, mtu);
    SectionsComeOutClean(Split(raw, '\n'), mtu);
    OrderIsKept(Split(raw, '\n'), mtu);
  }

  // ----- What the rewritten AllowedIPs line says -----

  function Dotted(ip: Routes.Ip): string {
    Decimal(ip / 0x100_0000) + "." + Decimal(ip / 0x1_0000 % 256) + "." + Decimal(ip / 256 % 256) + "." + Decimal(ip % 256)
  }

  /** A block as it is written. */
  function CidrText(p: Routes.Prefix): string { Dotted(p.addr) + "/" + Decimal(p.len) }

  lemma SmallDecimals()
    ensures Decimal(0) == "0" && Decimal(1) == "1" && Decimal(128) == "128"
  {
  }

  /** What was written 0.0.0.0/0 is rewritten to two blocks that hold the same
      IPv4 addresses, each address in exactly one of them. */
  lemma RewriteKeepsCoverage(ip: Routes.Ip)
    ensures CidrText(Routes.DEFAULT) == "0.0.0.0/0" && Everything(CidrText(Routes.DEFAULT))
    ensures Halves() == CidrText(Routes.LOW_HALF) + ", " + CidrText(Routes.HIGH_HALF)
    ensures Routes.Contains(Routes.DEFAULT, ip)
    ensures Routes.Contains(Routes.LOW_HALF, ip) <==> !Routes.Contains(Routes.HIGH_HALF, ip)
  {
    SmallDecimals();
    Routes.HalvesCover(ip);
    hide Decimal, Routes.Contains, Everything;
    assert CidrText(Routes.LOW_HALF) == "0.0.0.0/1";
    assert CidrText(Routes.HIGH_HALF) == "128.0.0.0/1";
    assert CidrText(Routes.DEFAULT) == "0.0.0.0/0";
    hide CidrText;
    assert Everything("0.0.0.0/0") by { DefaultIsEverything(); }
  }

  lemma DefaultIsEverything()
    ensures Everything("0.0.0.0/0")
  {
  }
}
