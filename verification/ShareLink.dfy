/** The wdtt:// share link: the printer in shareCmd (commands.go) and the parser
    (url_parser.go). */
module ShareLink {
  import opened Wrappers
  import opened Text

  const SCHEME: string := "wdtt://"

  datatype Link = Link(ip: string, dtlsPort: string, password: string, hashes: seq<string>, name: string,
                       workers: nat, port: string)

  datatype ParseError = TooFewFields | MissingField

  /** The fields a link carries; workers and port are defaults. */
  function NewLink(ip: string, dtlsPort: string, password: string, hashes: seq<string>, name: string): Link {
    Link(ip, dtlsPort, password, hashes, name, 9, "9000")
  }

  /** wdtt://ip:port:0:9000:password:hash,hash#name */
  function Print(l: Link): string {
    SCHEME + (l.ip + ":" + l.dtlsPort + ":0:9000:" + (l.password + ":" + Join(l.hashes, ',') + "#" + l.name))
  }

  function HostOf(peer: string): string {
    var i := LastIndex(peer, ':');
    if i == -1 then peer else peer[..i]
  }

  function PortOf(peer: string): string {
    var i := LastIndex(peer, ':');
    if i == -1 then "" else peer[i + 1..]
  }

  /** shareCmd: the peer is split at its last colon, a read-only profile's
      "ro-" prefix is not shown. */
  function LinkOfProfile(name: string, peer: string, password: string, hashes: seq<string>): Link {
    NewLink(HostOf(peer), PortOf(peer), password, hashes, TrimPrefix(name, "ro-"))
  }

  /** The non-empty trimmed pieces of a comma-separated list. */
  function Clean(parts: seq<string>): seq<string> {
    if parts == [] then []
    else
      var h := TrimSpace(parts[|parts| - 1]);
      Clean(parts[..|parts| - 1]) + if h != "" then [h] else []
  }

  function NameOf(tail: string): string {
    var i := LastIndex(tail, '#');
    var candidate := if i == -1 then "" else TrimSpace(tail[i + 1..]);
    if candidate != "" then candidate else "Server"
  }

  function BodyOf(tail: string): string {
    var i := LastIndex(tail, '#');
    if i == -1 then tail else tail[..i]
  }

  function PasswordOf(body: string): string {
    var i := LastIndex(body, ':');
    if i == -1 then body else body[..i]
  }

  function HashesOf(body: string): seq<string> {
    var i := LastIndex(body, ':');
    if i == -1 then [] else Clean(Split(body[i + 1..], ','))
  }

  function ParseParts(parts: seq<string>): Result<Link, ParseError> {
    if |parts| < 5 then Err(TooFewFields)
    else
      var tail := Join(parts[4..], ':');
      var body := BodyOf(tail);
      if parts[0] == "" || parts[1] == "" || PasswordOf(body) == "" then Err(MissingField)
      else Ok(NewLink(parts[0], parts[1], PasswordOf(body), HashesOf(body), NameOf(tail)))
  }

  function Parse(raw: string): Result<Link, ParseError> {
    ParseParts(Split(TrimPrefix(TrimSpace(raw), SCHEME), ':'))
  }

  /** The loop that collects the hashes. */
  method NonEmpty(pieces: seq<string>) returns (hashes: seq<string>)
    ensures hashes == Clean(pieces)
  {
    hide TrimSpace;
    hashes := [];
    for i := 0 to |pieces|
      invariant hashes == Clean(pieces[..i])
    {
      assert pieces[..i + 1][..i] == pieces[..i];
      var h := TrimSpace(pieces[i]);
      if h != "" {
        hashes := hashes + [h];
      }
    }
    assert pieces[..|pieces|] == pieces;
  }

  /** parseWdttURL as written, step by step. */
  method ParseWdttUrl(raw: string) returns (r: Result<Link, ParseError>)
    ensures r == Parse(raw)
  {
    hide TrimSpace, TrimPrefix, Split, Join, LastIndex, Clean;
    var stripped := TrimPrefix(TrimSpace(raw), SCHEME);
    var parts := Split(stripped, ':');
    if |parts| < 5 {
      return Err(TooFewFields);
    }
    var ip, dtlsPort := parts[0], parts[1];
    var tail := Join(parts[4..], ':');
    ghost var body := BodyOf(tail);
    var name := "Server";
    var hashIdx := LastIndex(tail, '#');
    var passwordAndHashes := tail;
    if hashIdx != -1 {
      var candidate := TrimSpace(tail[hashIdx + 1..]);
      if candidate != "" {
        name := candidate;
      }
      passwordAndHashes := tail[..hashIdx];
    }
    assert name == NameOf(tail) && passwordAndHashes == body;
    hide NameOf, BodyOf;
    var colonIdx := LastIndex(passwordAndHashes, ':');
    var password := passwordAndHashes;
    var hashes: seq<string> := [];
    if colonIdx != -1 {
      password := passwordAndHashes[..colonIdx];
      hashes := NonEmpty(Split(passwordAndHashes[colonIdx + 1..], ','));
    }
    assert password == PasswordOf(body) && hashes == HashesOf(body);
    hide PasswordOf, HashesOf;
    if ip == "" || dtlsPort == "" || password == "" {
      return Err(MissingField);
    }
    return Ok(NewLink(ip, dtlsPort, password, hashes, name));
  }

  /** The links that survive the trip. The password is unrestricted but for
      being non-empty: it may contain the separators. */
  predicate Printable(l: Link) {
    && l.workers == 9 && l.port == "9000"
    && l.ip != "" && ':' !in l.ip
    && l.dtlsPort != "" && ':' !in l.dtlsPort
    && l.password != ""
    && (forall h :: h in l.hashes ==> h != "" && Trimmed(h) && ',' !in h && ':' !in h)
    && l.name != "" && Trimmed(l.name) && '#' !in l.name
  }

  lemma {:induction false} CleanIsFixed(parts: seq<string>)
    requires forall i :: 0 <= i < |parts| ==> parts[i] != "" && Trimmed(parts[i])
    ensures Clean(parts) == parts
  {
    hide TrimSpace, Trimmed;
    if parts != [] {
      var n := |parts| - 1;
      TrimmedIsFixed(parts[n]);
      CleanIsFixed(parts[..n]);
      assert parts == parts[..n] + [parts[n]];
    }
  }

  lemma {:induction false} CleanIsClean(parts: seq<string>)
    ensures forall h :: h in Clean(parts) ==>
      h != "" && Trimmed(h) && forall c :: c in h ==> exists i :: 0 <= i < |parts| && c in parts[i]
  {
    if parts != [] {
      CleanIsClean(parts[..|parts| - 1]);
      TrimSpaceTrims(parts[|parts| - 1]);
    }
  }

  lemma {:induction false} JoinFree(parts: seq<string>, sep: char, c: char)
    requires Free(parts, c) && c != sep
    ensures c !in Join(parts, sep)
  {
    if |parts| > 1 {
      JoinFree(parts[1..], sep, c);
    }
  }

  /** HashesOf undoes the printed hash list. */
  lemma HashesReturn(password: string, hashes: seq<string>)
    requires forall h :: h in hashes ==> h != "" && Trimmed(h) && ',' !in h && ':' !in h
    ensures var body := password + ":" + Join(hashes, ',');
            PasswordOf(body) == password && HashesOf(body) == hashes
  {
    var list := Join(hashes, ',');
    var body := password + ":" + list;
    JoinFree(hashes, ',', ':');
    assert body[|password| + 1..] == list && body[..|password|] == password;
    LastIndexIs(body, ':', |password|);
    if hashes == [] {
      assert Split(list, ',') == [""];
      assert Clean([""]) == Clean([]) == [];
    } else {
      SplitJoin(hashes, ',');
      CleanIsFixed(hashes);
    }
  }

  /** What stands before the last colon is the password, colons included; without
      one all of it is, and there are no hashes. */
  lemma PasswordExactly(password: string, list: string)
    requires ':' !in list
    ensures PasswordOf(list) == list && HashesOf(list) == []
    ensures var body := password + ":" + list;
            PasswordOf(body) == password && HashesOf(body) == Clean(Split(list, ','))
  {
    var body := password + ":" + list;
    assert body[|password| + 1..] == list && body[..|password|] == password;
    LastIndexIs(body, ':', |password|);
    hide Split, Clean;
  }

  /** The hash list loses the white space around its items, and its blank items. */
  lemma {:induction false} CleanExactly(a: seq<string>, b: seq<string>, item: string)
    ensures Clean(a + b) == Clean(a) + Clean(b)
    ensures Clean([item]) == if TrimSpace(item) == "" then [] else [TrimSpace(item)]
    decreases |b|
  {
    hide TrimSpace;
    assert [item][..0] == [];
    if b == [] {
      assert a + b == a;
    } else {
      var n := |b| - 1;
      CleanExactly(a, b[..n], item);
      assert (a + b)[..|a| + n] == a + b[..n];
    }
  }

  /** When a link is refused, and why: fewer than five fields, or host, port or
      password empty. */
  lemma RefusedExactly(raw: string)
    ensures var parts := Split(TrimPrefix(TrimSpace(raw), "wdtt://"), ':');
            && (Parse(raw) == Err(TooFewFields) <==> |parts| < 5)
            && (Parse(raw).Ok? <==> |parts| >= 5 && parts[0] != "" && parts[1] != ""
                                    && PasswordOf(BodyOf(Join(parts[4..], ':'))) != "")
  {
  }

  /** NameOf and BodyOf undo the last separator. */
  lemma NameReturns(body: string, name: string)
    requires '#' !in name
    ensures BodyOf(name) == name && NameOf(name) == "Server"
    ensures BodyOf(body + "#" + name) == body
    ensures NameOf(body + "#" + name) == if TrimSpace(name) != "" then TrimSpace(name) else "Server"
  {
    var tail := body + "#" + name;
    assert tail[|body| + 1..] == name && tail[..|body|] == body;
    LastIndexIs(tail, '#', |body|);
  }

  lemma FieldReturns(field: string, rest: string)
    requires ':' !in field
    ensures Split(field + ":" + rest, ':') == [field] + Split(rest, ':')
  {
    SplitConcat(field, rest, ':');
    SplitSingle(field, ':');
  }

  /** The fields before the password. */
  lemma FieldsReturn(ip: string, port: string, tail: string)
    requires ':' !in ip && ':' !in port
    ensures var parts := Split(ip + ":" + port + ":0:9000:" + tail, ':');
            |parts| >= 5 && parts[0] == ip && parts[1] == port && Join(parts[4..], ':') == tail
  {
    hide Split, Join;
    var rest := Split(tail, ':');
    var s := ip + ":" + port + ":0:9000:" + tail;
    var third := "9000" + ":" + tail;
    var second := "0" + ":" + third;
    var first := port + ":" + second;
    assert s == ip + ":" + first;
    FieldReturns(ip, first);
    FieldReturns(port, second);
    FieldReturns("0", third);
    FieldReturns("9000", tail);
    assert Split(s, ':') == [ip, port, "0", "9000"] + rest;
    assert ([ip, port, "0", "9000"] + rest)[4..] == rest;
    SplitParts(tail, ':');
  }

  lemma StrippedLink(l: Link)
    requires l.name != "" && Trimmed(l.name)
    ensures HasPrefix(Print(l), "wdtt://")
    ensures TrimPrefix(TrimSpace(Print(l)), "wdtt://")
         == l.ip + ":" + l.dtlsPort + ":0:9000:" + (l.password + ":" + Join(l.hashes, ',') + "#" + l.name)
  {
    var s := Print(l);
    var rest := l.ip + ":" + l.dtlsPort + ":0:9000:" + (l.password + ":" + Join(l.hashes, ',') + "#" + l.name);
    assert s[0] == SCHEME[0] && s[|s| - 1] == rest[|rest| - 1] == l.name[|l.name| - 1];
    assert Trimmed(s);
    TrimmedIsFixed(s);
    hide *;
    DropPrefix(SCHEME, rest);
  }

  lemma DropPrefix(p: string, rest: string)
    ensures TrimPrefix(p + rest, p) == rest
  {
  }

  lemma PrintableReturns(l: Link)
    requires Printable(l)
    ensures Parse(Print(l)) == Ok(l)
  {
    var body := l.password + ":" + Join(l.hashes, ',');
    StrippedLink(l);
    FieldsReturn(l.ip, l.dtlsPort, body + "#" + l.name);
    NameReturns(body, l.name);
    HashesReturn(l.password, l.hashes);
    TrimmedIsFixed(l.name);
  }

  /** Everything the parser returns could be printed and read back. */
  lemma ParsedIsPrintable(raw: string)
    requires Parse(raw).Ok?
    ensures Printable(Parse(raw).value)
  {
    var stripped := TrimPrefix(TrimSpace(raw), SCHEME);
    var parts := Split(stripped, ':');
    var tail := Join(parts[4..], ':');
    var l := Parse(raw).value;
    SplitParts(stripped, ':');
    assert parts[0] in parts && parts[1] in parts;
    NameIsClean(tail);
    HashesAreClean(BodyOf(tail));
  }

  lemma NameIsClean(tail: string)
    ensures NameOf(tail) != "" && Trimmed(NameOf(tail)) && '#' !in NameOf(tail)
  {
    var i := LastIndex(tail, '#');
    if i != -1 {
      TrimSpaceTrims(tail[i + 1..]);
      AfterLast(tail, '#');
    }
    hide TrimSpace, LastIndex;
  }

  lemma HashesAreClean(body: string)
    ensures forall h :: h in HashesOf(body) ==> h != "" && Trimmed(h) && ',' !in h && ':' !in h
  {
    var i := LastIndex(body, ':');
    if i != -1 {
      var list := body[i + 1..];
      var pieces := Split(list, ',');
      AfterLast(body, ':');
      CleanIsClean(pieces);
      SplitParts(list, ',');
      forall k | 0 <= k < |pieces|
        ensures ',' !in pieces[k] && ':' !in pieces[k]
      {
        assert pieces[k] in pieces;
        if ':' in pieces[k] {
          PieceOfJoin(pieces, ',', k, ':');
        }
      }
    }
  }

  lemma {:induction false} PieceOfJoin(parts: seq<string>, sep: char, k: nat, c: char)
    requires k < |parts| && c in parts[k]
    ensures c in Join(parts, sep)
  {
    if k > 0 {
      PieceOfJoin(parts[1..], sep, k - 1, c);
    }
  }

  /** The round trip, exactly: a link is read back as it was printed if and only
      if it is printable. */
  lemma RoundTripExactly(l: Link)
    ensures Parse(Print(l)) == Ok(l) <==> Printable(l)
  {
    if Printable(l) {
      PrintableReturns(l);
    }
    if Parse(Print(l)) == Ok(l) {
      ParsedIsPrintable(Print(l));
    }
  }

  /** The parser is a projection: printing what it read and reading it again
      changes nothing. */
  lemma ParseIsStable(raw: string)
    requires Parse(raw).Ok?
    ensures Parse(Print(Parse(raw).value)) == Parse(raw)
  {
    ParsedIsPrintable(raw);
    PrintableReturns(Parse(raw).value);
  }

  lemma {:induction false} SplitsIntoOne(s: string, c: char)
    ensures |Split(s, c)| == 1 <==> c !in s
  {
    if s != [] {
      SplitsIntoOne(s[1..], c);
      assert c in s <==> s[0] == c || c in s[1..];
    }
  }

  lemma SplitsIntoTwo(a: string, b: string, c: char)
    requires c !in b
    ensures var parts := Split(a + [c] + b, c);
            (|parts| == 2 <==> c !in a) && (c !in a ==> parts == [a, b])
  {
    SplitsIntoOne(a, c);
    if c !in a {
      SplitSingle(a, c);
    }
    SplitConcat(a, b, c);
    SplitSingle(b, c);
    hide *;
  }

  lemma PeerSplits(peer: string)
    ensures ':' !in PortOf(peer)
    ensures (':' !in peer && HostOf(peer) == peer && PortOf(peer) == "")
            || peer == HostOf(peer) + [':'] + PortOf(peer)
  {
    AfterLast(peer, ':');
    if LastIndex(peer, ':') == -1 {
      assert peer[0..] == peer;
    }
  }

  lemma PeerFields(peer: string)
    ensures var ip, port, parts := HostOf(peer), PortOf(peer), Split(peer, ':');
            (ip != "" && ':' !in ip && port != "" && ':' !in port)
            <==> (|parts| == 2 && parts[0] != "" && parts[1] != "")
  {
    hide *;
    PeerSplits(peer);
    if ':' !in peer {
      SplitSingle(peer, ':');
    } else {
      SplitsIntoTwo(HostOf(peer), PortOf(peer), ':');
    }
  }

  /** Which profiles can be shared: the printed link is read back as the
      profile's own fields if and only if the peer splits at colons into a
      non-empty host and port, the password is non-empty, every hash is a clean
      list item and the displayed name is non-empty, trimmed and without '#'.
      A bracketed IPv6 peer therefore cannot be shared. */
  lemma ShareableExactly(name: string, peer: string, password: string, hashes: seq<string>)
    ensures var l := LinkOfProfile(name, peer, password, hashes);
            var parts, shown := Split(peer, ':'), TrimPrefix(name, "ro-");
            Parse(Print(l)) == Ok(l) <==>
              (|parts| == 2 && parts[0] != "" && parts[1] != "" && password != ""
               && (forall h :: h in hashes ==> h != "" && Trimmed(h) && ',' !in h && ':' !in h)
               && shown != "" && Trimmed(shown) && '#' !in shown)
  {
    var l := LinkOfProfile(name, peer, password, hashes);
    PeerFields(peer);
    RoundTripExactly(l);
    hide Parse, Print, Split, Trimmed, TrimPrefix, HostOf, PortOf;
  }

  /** What the other side reads of a shared profile: the host before and the port
      behind the peer's colon, password and hashes, and the name as displayed. */
  lemma SharedProfile(name: string, host: string, port: string, password: string, hashes: seq<string>)
    requires host != "" && ':' !in host && port != "" && ':' !in port && password != ""
    requires forall h :: h in hashes ==> h != "" && Trimmed(h) && ',' !in h && ':' !in h
    requires name != "" && Trimmed(name) && '#' !in name && !HasPrefix(name, "ro-")
    ensures Parse(Print(LinkOfProfile(name, host + ":" + port, password, hashes)))
         == Ok(Link(host, port, password, hashes, name, 9, "9000"))
    ensures LinkOfProfile("ro-" + name, host + ":" + port, password, hashes)
         == LinkOfProfile(name, host + ":" + port, password, hashes)
  {
    var peer := host + ":" + port;
    assert peer[|host| + 1..] == port && peer[..|host|] == host;
    LastIndexIs(peer, ':', |host|);
    DropPrefix("ro-", name);
    assert HostOf(peer) == host && PortOf(peer) == port;
    hide Parse, Print, Trimmed, HasPrefix, HostOf, PortOf, LastIndex;
    PrintableReturns(Link(host, port, password, hashes, name, 9, "9000"));
  }
}
