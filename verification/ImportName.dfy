/** The names under which imported profiles are stored (normalizeImportName,
    commands.go), for a name that arrives with its Cyrillic letters replaced. */
module ImportName {
  import opened Text

  /** What one character becomes. */
  function Mapped(c: char): string {
    if 'a' <= c <= 'z' || '0' <= c <= '9' then [c]
    else if c == ' ' then "_"
    else if c == '-' || c == '_' then [c]
    else ""
  }

  function MapAll(s: string): string {
    if s == "" then "" else MapAll(s[..|s| - 1]) + Mapped(s[|s| - 1])
  }

  function TrimLeftMarks(s: string): string { if s != "" && s[0] == '_' then TrimLeftMarks(s[1..]) else s }

  function TrimRightMarks(s: string): string {
    if s != "" && s[|s| - 1] == '_' then TrimRightMarks(s[..|s| - 1]) else s
  }

  function Normalised(name: string): string { TrimRightMarks(TrimLeftMarks(MapAll(ToLower(TrimSpace(name))))) }

  /** normalizeImportName. */
  method NormalizeImportName(name: string) returns (r: string)
    ensures r == Normalised(name)
  {
    hide TrimSpace, ToLower;
    var lower := ToLower(TrimSpace(name));
    var b := "";
    for i := 0 to |lower|
      invariant b == MapAll(lower[..i])
    {
      assert lower[..i + 1][..i] == lower[..i];
      var c := lower[i];
      if ('a' <= c <= 'z') || ('0' <= c <= '9') {
        b := b + [c];
      } else if c == ' ' {
        b := b + "_";
      } else if c == '-' || c == '_' {
        b := b + [c];
      }
    }
    assert lower[..|lower|] == lower;
    r := TrimRightMarks(TrimLeftMarks(b));
  }

  /** Small letters, digits, '-' and '_', the last not at either end. */
  predicate Normal(name: string) {
    && (forall c :: c in name ==> NormalChar(c))
    && (name != "" ==> name[0] != '_' && name[|name| - 1] != '_')
  }

  predicate NormalChar(c: char) { 'a' <= c <= 'z' || '0' <= c <= '9' || c == '-' || c == '_' }

  lemma {:induction false} MapsToNormal(s: string)
    ensures forall c :: c in MapAll(s) ==> NormalChar(c)
  {
    if s != "" {
      MapsToNormal(s[..|s| - 1]);
    }
  }

  lemma {:induction false} MapsNormalToItself(s: string)
    requires forall c :: c in s ==> NormalChar(c)
    ensures MapAll(s) == s
  {
    if s != "" {
      var n := |s| - 1;
      assert s == s[..n] + [s[n]] && s[n] in s;
      MapsNormalToItself(s[..n]);
    }
  }

  lemma {:induction false} LeftMarksGo(s: string)
    ensures TrimLeftMarks(s) == "" || TrimLeftMarks(s)[0] != '_'
    ensures forall c :: c in TrimLeftMarks(s) ==> c in s
  {
    if s != "" && s[0] == '_' {
      LeftMarksGo(s[1..]);
    }
  }

  lemma {:induction false} RightMarksGo(s: string)
    ensures TrimRightMarks(s) == "" || TrimRightMarks(s)[|TrimRightMarks(s)| - 1] != '_'
    ensures TrimRightMarks(s) <= s
  {
    if s != "" && s[|s| - 1] == '_' {
      RightMarksGo(s[..|s| - 1]);
    }
  }

  lemma NormalIsFixed(name: string)
    requires Normal(name)
    ensures Normalised(name) == name
  {
    if name != "" {
      assert name[0] in name && name[|name| - 1] in name;
      NormalIsNoSpace(name[0]);
      NormalIsNoSpace(name[|name| - 1]);
    }
    TrimmedIsFixed(name);
    assert forall i :: 0 <= i < |name| ==> name[i] in name;
    assert ToLower(name) == name;
    MapsNormalToItself(name);
    hide TrimSpace, ToLower, MapAll;
  }

  lemma NormalIsNoSpace(c: char)
    requires NormalChar(c)
    ensures !IsSpace(c)
  {
  }

  /** The names it returns are exactly these, and it leaves each of them alone. */
  lemma NormalExactly(name: string)
    ensures Normal(name) <==> exists s :: Normalised(s) == name
    ensures Normal(name) ==> Normalised(name) == name
  {
    if Normal(name) {
      NormalIsFixed(name);
    }
    if exists s :: Normalised(s) == name {
      var s :| Normalised(s) == name;
      var mapped := MapAll(ToLower(TrimSpace(s)));
      MapsToNormal(ToLower(TrimSpace(s)));
      LeftMarksGo(mapped);
      RightMarksGo(TrimLeftMarks(mapped));
      hide TrimSpace, ToLower, MapAll, TrimLeftMarks, TrimRightMarks;
    }
  }

  // ----- What stays of a name -----

  /** The letters, digits and hyphens of a text, in order. */
  function Letters(s: string): string {
    if s == "" then ""
    else Letters(s[..|s| - 1]) + if NormalChar(s[|s| - 1]) && s[|s| - 1] != '_' then [s[|s| - 1]] else ""
  }

  lemma {:induction false} LettersAppend(a: string, b: string)
    ensures Letters(a + b) == Letters(a) + Letters(b)
  {
    if b == "" {
      assert a + b == a;
    } else {
      var n := |b| - 1;
      LettersAppend(a, b[..n]);
      assert (a + b)[..|a| + n] == a + b[..n];
      hide NormalChar;
    }
  }

  lemma LettersOfOne(c: char)
    ensures Letters([c]) == if NormalChar(c) && c != '_' then [c] else ""
    ensures Letters(Mapped(c)) == Letters([c])
  {
  }

  lemma {:induction false} MappingKeepsLetters(s: string)
    ensures Letters(MapAll(s)) == Letters(s)
  {
    if s != "" {
      var n := |s| - 1;
      MappingKeepsLetters(s[..n]);
      LettersOfOne(s[n]);
      assert s == s[..n] + [s[n]];
      hide Mapped, Letters;
      LettersAppend(s[..n], [s[n]]);
      LettersAppend(MapAll(s[..n]), Mapped(s[n]));
    }
  }

  lemma {:induction false} LeftKeepsLetters(s: string)
    ensures Letters(TrimLeftMarks(s)) == Letters(s)
  {
    if s != "" && s[0] == '_' {
      LeftKeepsLetters(s[1..]);
      LettersOfOne(s[0]);
      LettersAppend([s[0]], s[1..]);
      assert s == [s[0]] + s[1..];
      hide Letters;
    }
  }

  lemma {:induction false} RightKeepsLetters(s: string)
    ensures Letters(TrimRightMarks(s)) == Letters(s)
  {
    if s != "" && s[|s| - 1] == '_' {
      RightKeepsLetters(s[..|s| - 1]);
    }
  }

  lemma SpaceIsNoLetter(c: char)
    requires IsSpace(c)
    ensures !NormalChar(LowerChar(c))
  {
  }

  lemma {:induction false} SpacesHaveNoLetters(s: string)
    requires AllSpace(s)
    ensures Letters(ToLower(s)) == ""
  {
    hide IsSpace, LowerChar, NormalChar;
    if s != "" {
      var n := |s| - 1;
      assert s[n] in s && forall c :: c in s[..n] ==> c in s;
      SpacesHaveNoLetters(s[..n]);
      SpaceIsNoLetter(s[n]);
      assert ToLower(s)[..n] == ToLower(s[..n]) && ToLower(s)[n] == LowerChar(s[n]);
      hide ToLower;
    }
  }

  /** Every letter, digit and hyphen of the name stays, in small letters and in
      order. */
  lemma LettersStay(name: string)
    ensures Letters(Normalised(name)) == Letters(ToLower(name))
  {
    TrimSpaceExactly(name);
    hide TrimSpace, IsSpace, AllSpace, Letters, MapAll, TrimLeftMarks, TrimRightMarks;
    var a, b :| AllSpace(a) && AllSpace(b) && name == a + TrimSpace(name) + b;
    var inner := ToLower(TrimSpace(name));
    assert ToLower(name) == ToLower(a) + inner + ToLower(b);
    hide ToLower;
    SpacesHaveNoLetters(a);
    SpacesHaveNoLetters(b);
    LettersAppend(ToLower(a) + inner, ToLower(b));
    LettersAppend(ToLower(a), inner);
    MappingKeepsLetters(inner);
    LeftKeepsLetters(MapAll(inner));
    RightKeepsLetters(TrimLeftMarks(MapAll(inner)));
  }

  lemma {:induction false} MapAppends(a: string, b: string)
    ensures MapAll(a + b) == MapAll(a) + MapAll(b)
  {
    hide Mapped;
    if b == "" {
      assert a + b == a;
    } else {
      var n := |b| - 1;
      MapAppends(a, b[..n]);
      assert (a + b)[..|a| + n] == a + b[..n];
    }
  }

  /** A blank between two words becomes a mark. */
  lemma BlanksAreMarked(a: string, b: string)
    requires a != "" && b != "" && Normal(a) && Normal(b)
    ensures Normalised(a + " " + b) == a + "_" + b
  {
    hide *;
    var name := a + " " + b;
    BlankInside(a, b);
    assert Normalised(name) == TrimRightMarks(TrimLeftMarks(MapAll(name))) by { NormalisedIs(name); }
    BlankMaps(a, b);
    NoMarksAround(a, b);
  }

  lemma NormalisedIs(name: string)
    requires ToLower(TrimSpace(name)) == name
    ensures Normalised(name) == TrimRightMarks(TrimLeftMarks(MapAll(name)))
  {
  }

  lemma BlankInside(a: string, b: string)
    requires a != "" && b != "" && Normal(a) && Normal(b)
    ensures ToLower(TrimSpace(a + " " + b)) == a + " " + b
  {
    var name := a + " " + b;
    hide IsSpace, LowerChar;
    assert name[0] == a[0] && name[|name| - 1] == b[|b| - 1] && a[0] in a && b[|b| - 1] in b;
    NormalIsNoSpace(name[0]);
    NormalIsNoSpace(name[|name| - 1]);
    TrimmedIsFixed(name);
    LowerIsFixed(a);
    LowerIsFixed(b);
    hide TrimSpace, NormalChar;
    assert ToLower(name) == ToLower(a) + ToLower(" ") + ToLower(b);
    assert ToLower(" ") == " " by { assert LowerChar(' ') == ' ' by { BlankIsLower(); } }
  }

  lemma BlankIsLower()
    ensures LowerChar(' ') == ' '
  {
  }

  lemma BlankMaps(a: string, b: string)
    requires Normal(a) && Normal(b)
    ensures MapAll(a + " " + b) == a + "_" + b
  {
    MapsNormalToItself(a);
    MapsNormalToItself(b);
    assert MapAll(" ") == "_" by { assert " "[..0] == ""; }
    hide MapAll;
    MapAppends(a + " ", b);
    MapAppends(a, " ");
  }

  lemma NoMarksAround(a: string, b: string)
    requires a != "" && b != "" && Normal(a) && Normal(b)
    ensures TrimRightMarks(TrimLeftMarks(a + "_" + b)) == a + "_" + b
  {
  }

  lemma LowerIsFixed(s: string)
    requires forall c :: c in s ==> NormalChar(c)
    ensures ToLower(s) == s
  {
    assert forall i :: 0 <= i < |s| ==> s[i] in s;
  }
}
