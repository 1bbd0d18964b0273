/** The peer table and the text file it is saved to. */
module PeerStore {
  import opened Bytes
  import opened Numerals

  const BAR: byte := 124
  const NEWLINE: byte := 10

  datatype Endpoint = Endpoint(address: Text, port: uint16)

  datatype PeerInfo = PeerInfo(
    id: Text, address: Text, port: uint16, publicKey: seq<byte>, isConnected: bool, lastSeen: int)

  type PeerTable = map<Text, PeerInfo>

  /** Every entry sits under its own id: AddPeer is the only way in. */
  predicate Keyed(peers: PeerTable) {
    forall k :: k in peers ==> peers[k].id == k
  }

  predicate Plain(s: Text) {
    BAR !in s && NEWLINE !in s
  }

  predicate Clean(peers: PeerTable) {
    forall k :: k in peers ==> Plain(peers[k].id) && Plain(peers[k].address)
  }

  predicate AllHaveKeys(peers: PeerTable) {
    forall k :: k in peers ==> peers[k].publicKey != []
  }

  /** A walk over an unordered map: every key once, in any order. */
  ghost predicate Enumerates(order: seq<Text>, keys: set<Text>) {
    && (forall k :: k in order <==> k in keys)
    && (forall i, j :: 0 <= i < j < |order| ==> order[i] != order[j])
  }

  function WithStatus(peers: PeerTable, id: Text, connected: bool, now: int): PeerTable {
    if id in peers then peers[id := peers[id].(isConnected := connected, lastSeen := now)] else peers
  }

  /** A status change touches the status and time of one existing entry, and nothing
      else: no key, address or port, no other entry, no new one. */
  lemma StatusEffect(peers: PeerTable, id: Text, connected: bool, now: int)
    ensures var after := WithStatus(peers, id, connected, now);
            && after.Keys == peers.Keys
            && (forall k :: k in peers ==>
                  && after[k].id == peers[k].id && after[k].address == peers[k].address
                  && after[k].port == peers[k].port && after[k].publicKey == peers[k].publicKey
                  && (k != id ==> after[k] == peers[k]))
            && (id in peers ==> after[id].isConnected == connected && after[id].lastSeen == now)
  {
  }

  // ---- Printing

  function HexKey(key: seq<byte>): Text {
    if key == [] then [] else Hex2(key[0]) + HexKey(key[1..])
  }

  function Line(p: PeerInfo): Text {
    p.id + [BAR] + p.address + [BAR] + Decimal(p.port) + [BAR] + HexKey(p.publicKey)
  }

  function FileOf(peers: PeerTable, order: seq<Text>): Text
    requires forall k :: k in order ==> k in peers
  {
    if order == [] then [] else Line(peers[order[0]]) + [NEWLINE] + FileOf(peers, order[1..])
  }

  // ---- Parsing

  /** `std::getline`: fails only when nothing is left; the text up to the delimiter
      and what follows it, or all of it when there is none. */
  function GetLine(s: Text, delim: byte): (r: Option<(Text, Text)>)
    ensures r.None? <==> s == []
    ensures r.Some? ==> |r.value.1| < |s| && delim !in r.value.0
  {
    if s == [] then None
    else if s[0] == delim then Some(([], s[1..]))
    else match GetLine(s[1..], delim)
      case None => Some((s, []))
      case Some((line, rest)) => Some(([s[0]] + line, rest))
  }

  /** Two characters at a time through `stoul`; None when it throws. */
  function ParseKey(hex: Text): Option<seq<byte>> {
    if hex == [] then Some([])
    else
      var n := if |hex| < 2 then |hex| else 2;
      match Stoul(hex[..n], 16)
      case Number(v) =>
        (match ParseKey(hex[n..])
         case None => None
         case Some(rest) => Some([v % 256] + rest))
      case _ => None
  }

  datatype LineResult = Skip | Throws | Entry(peer: PeerInfo)

  function Fields(line: Text): Option<(Text, Text, Text, Text)> {
    match GetLine(line, BAR)
    case None => None
    case Some((id, s1)) => match GetLine(s1, BAR)
      case None => None
      case Some((address, s2)) => match GetLine(s2, BAR)
        case None => None
        case Some((port, s3)) => match GetLine(s3, NEWLINE)
          case None => None
          case Some((hex, _)) => Some((id, address, port, hex))
  }

  function ParseLine(line: Text, now: int): LineResult {
    match Fields(line)
    case None => Skip
    case Some((id, address, port, hex)) =>
      match (Stoul(port, 10), ParseKey(hex))
      case (Number(p), Some(key)) => Entry(PeerInfo(id, address, p % 0x1_0000, key, false, now))
      case _ => Throws
  }

  datatype Loaded = Loaded(peers: PeerTable, threw: bool)

  function Load(peers: PeerTable, file: Text, now: int): Loaded
    decreases |file|
  {
    match GetLine(file, NEWLINE)
    case None => Loaded(peers, false)
    case Some((line, rest)) =>
      match ParseLine(line, now)
      case Skip => Load(peers, rest, now)
      case Throws => Loaded(peers, true)
      case Entry(p) => Load(peers[p.id := p], rest, now)
  }

  // ---- The round trip

  lemma {:induction false} GetLineAt(a: Text, delim: byte, b: Text)
    requires delim !in a
    ensures GetLine(a + [delim] + b, delim) == Some((a, b))
  {
    var s := a + [delim] + b;
    if a == [] {
      assert s[0] == delim && s[1..] == b;
    } else {
      assert a[0] in a;
      GetLineAt(a[1..], delim, b);
      assert s[1..] == a[1..] + [delim] + b;
      assert [a[0]] + a[1..] == a;
    }
  }

  lemma {:induction false} GetLineLast(a: Text, delim: byte)
    requires delim !in a && a != []
    ensures GetLine(a, delim) == Some((a, []))
  {
    assert a[0] in a;
    if |a| > 1 {
      GetLineLast(a[1..], delim);
      assert [a[0]] + a[1..] == a;
    }
  }

  lemma DecimalIsPlain(n: nat)
    ensures Plain(Decimal(n))
  {
    DecimalDigits(n);
  }

  lemma {:induction false} HexKeyRoundTrip(key: seq<byte>)
    ensures ParseKey(HexKey(key)) == Some(key) && NEWLINE !in HexKey(key)
    ensures HexKey(key) == [] <==> key == []
  {
    hide Stoul;
    if key != [] {
      var hex := HexKey(key);
      HexKeyRoundTrip(key[1..]);
      HexRoundTrip(key[0]);
      assert hex[..2] == Hex2(key[0]) && hex[2..] == HexKey(key[1..]);
      assert [key[0]] + key[1..] == key;
    }
  }

  lemma FieldsOfLine(p: PeerInfo)
    requires Plain(p.id) && Plain(p.address)
    ensures Fields(Line(p)) ==
            if p.publicKey == [] then None else Some((p.id, p.address, Decimal(p.port), HexKey(p.publicKey)))
    ensures NEWLINE !in Line(p)
  {
    hide Decimal, HexKey, ParseKey, GetLine;
    var hex, port := HexKey(p.publicKey), Decimal(p.port);
    DecimalIsPlain(p.port);
    HexKeyRoundTrip(p.publicKey);
    var s2 := port + [BAR] + hex;
    var s1 := p.address + [BAR] + s2;
    assert Line(p) == p.id + [BAR] + s1;
    GetLineAt(p.id, BAR, s1);
    GetLineAt(p.address, BAR, s2);
    GetLineAt(port, BAR, hex);
    if hex != [] {
      GetLineLast(hex, NEWLINE);
    }
  }

  /** A printed line parses back to its peer, offline; one without a key is skipped. */
  lemma ParseOfLine(p: PeerInfo, now: int)
    requires Plain(p.id) && Plain(p.address)
    ensures ParseLine(Line(p), now) ==
            if p.publicKey == [] then Skip else Entry(p.(isConnected := false, lastSeen := now))
  {
    hide Stoul, Decimal, HexKey, ParseKey, Line, Fields;
    FieldsOfLine(p);
    HexKeyRoundTrip(p.publicKey);
    DecimalRoundTrip(p.port);
  }

  /** What a saved table should come back as. */
  function Restored(peers: PeerTable, now: int): PeerTable {
    map k | k in peers && peers[k].publicKey != [] :: peers[k].(isConnected := false, lastSeen := now)
  }

  function RestoredOf(peers: PeerTable, order: seq<Text>, now: int): PeerTable {
    map k | k in Restored(peers, now) && k in order :: Restored(peers, now)[k]
  }

  lemma LoadStep(base: PeerTable, peers: PeerTable, order: seq<Text>, now: int)
    requires Keyed(peers) && Clean(peers) && (forall k :: k in order ==> k in peers) && order != []
    ensures var k := order[0];
            var base' := if k in Restored(peers, now) then base[k := Restored(peers, now)[k]] else base;
            Load(base, FileOf(peers, order), now) == Load(base', FileOf(peers, order[1..]), now)
  {
    hide Line, ParseLine;
    var p := peers[order[0]];
    FieldsOfLine(p);
    ParseOfLine(p, now);
    GetLineAt(Line(p), NEWLINE, FileOf(peers, order[1..]));
  }

  lemma MergeStep(base: PeerTable, peers: PeerTable, order: seq<Text>, now: int)
    requires order != []
    ensures var k, all := order[0], Restored(peers, now);
            (if k in all then base[k := all[k]] else base) + RestoredOf(peers, order[1..], now) ==
            base + RestoredOf(peers, order, now)
  {
    assert order == [order[0]] + order[1..];
  }

  lemma LoadNothing(base: PeerTable, now: int)
    ensures Load(base, [], now) == Loaded(base, false)
  {
  }

  lemma {:induction false} LoadOrder(base: PeerTable, peers: PeerTable, order: seq<Text>, now: int)
    requires Keyed(peers) && Clean(peers) && forall k :: k in order ==> k in peers
    ensures Load(base, FileOf(peers, order), now) == Loaded(base + RestoredOf(peers, order, now), false)
    decreases order
  {
    hide Load, Line;
    if order == [] {
      LoadNothing(base, now);
      assert base + RestoredOf(peers, order, now) == base;
    } else {
      var k, tail, all := order[0], order[1..], Restored(peers, now);
      var base' := if k in all then base[k := all[k]] else base;
      LoadStep(base, peers, order, now);
      LoadOrder(base', peers, tail, now);
      MergeStep(base, peers, order, now);
    }
  }

  /** Loading a saved table, whatever the walk order, merges it into the manager: the
      file wins, and exactly the peers with a key come back. */
  lemma SaveLoad(base: PeerTable, peers: PeerTable, order: seq<Text>, now: int)
    requires Keyed(peers) && Clean(peers) && Enumerates(order, peers.Keys)
    ensures Load(base, FileOf(peers, order), now) == Loaded(base + Restored(peers, now), false)
  {
    hide Load, FileOf;
    LoadOrder(base, peers, order, now);
    assert RestoredOf(peers, order, now) == Restored(peers, now);
  }

  /** A second save and load changes nothing but `lastSeen`. */
  lemma SecondSaveLoad(peers: PeerTable, order: seq<Text>, now: int, once: PeerTable, order': seq<Text>, now': int)
    requires Keyed(peers) && Clean(peers) && Enumerates(order, peers.Keys)
    requires once == Load(map[], FileOf(peers, order), now).peers && Enumerates(order', once.Keys)
    ensures Load(map[], FileOf(once, order'), now') == Loaded(map k | k in once :: once[k].(lastSeen := now'), false)
  {
    hide Load, FileOf;
    SaveLoad(map[], peers, order, now);
    RestoredTwice(peers, now, now');
    assert once == Restored(peers, now);
    SaveLoad(map[], once, order', now');
  }

  lemma RestoredTwice(peers: PeerTable, now: int, now': int)
    requires Keyed(peers) && Clean(peers)
    ensures var once := Restored(peers, now);
            && Keyed(once) && Clean(once)
            && map[] + Restored(once, now') == map k | k in once :: once[k].(lastSeen := now')
  {
  }

  lemma {:induction false} GetLineKeepsOut(s: Text, delim: byte, c: byte)
    requires c !in s && s != []
    ensures c !in GetLine(s, delim).value.0 && c !in GetLine(s, delim).value.1
  {
    if s[0] != delim && |s| > 1 {
      GetLineKeepsOut(s[1..], delim, c);
    }
  }

  lemma ParsedIsPlain(line: Text, now: int)
    requires ParseLine(line, now).Entry? && NEWLINE !in line
    ensures Plain(ParseLine(line, now).peer.id) && Plain(ParseLine(line, now).peer.address)
  {
    GetLineKeepsOut(line, BAR, NEWLINE);
    GetLineKeepsOut(GetLine(line, BAR).value.1, BAR, NEWLINE);
  }

  /** No file whatever can bring back an id or address holding a bar or a newline. */
  lemma {:induction false} LoadedIsClean(base: PeerTable, file: Text, now: int)
    requires Clean(base) && Keyed(base)
    ensures Clean(Load(base, file, now).peers) && Keyed(Load(base, file, now).peers)
    decreases |file|
  {
    match GetLine(file, NEWLINE)
    case None =>
    case Some((line, rest)) =>
      match ParseLine(line, now)
      case Skip => LoadedIsClean(base, rest, now);
      case Throws =>
      case Entry(p) =>
        ParsedIsPlain(line, now);
        LoadedIsClean(base[p.id := p], rest, now);
  }

  /** Whatever comes back has no bar and no newline in an id or address, for every table
      and every walk order. */
  lemma CameBackIsClean(peers: PeerTable, order: seq<Text>, now: int)
    requires forall k :: k in order ==> k in peers
    ensures Load(map[], FileOf(peers, order), now) == Loaded(Restored(peers, now), false) ==>
              Clean(Restored(peers, now))
  {
    LoadedIsClean(map[], FileOf(peers, order), now);
  }

  // ---- The exact condition

  lemma {:induction false} GetLineSplit(a: Text, delim: byte, b: Text)
    requires a != [] && delim in a
    ensures var (line, rest) := GetLine(a, delim).value;
            GetLine(a + b, delim) == Some((line, rest + b))
  {
    assert (a + b)[1..] == a[1..] + b;
    if a[0] != delim {
      GetLineSplit(a[1..], delim, b);
    }
  }

  /** Text that is empty or ends in a newline. */
  predicate WholeLines(a: Text) {
    a == [] || a[|a| - 1] == NEWLINE
  }

  lemma {:induction false} RestIsWhole(a: Text)
    requires WholeLines(a) && a != []
    ensures WholeLines(GetLine(a, NEWLINE).value.1)
  {
    if a[0] != NEWLINE {
      RestIsWhole(a[1..]);
    }
  }

  /** Loading whole lines and then more is loading the two one after the other. */
  lemma {:induction false} LoadThen(base: PeerTable, a: Text, b: Text, now: int)
    requires WholeLines(a)
    ensures Load(base, a + b, now) ==
            if Load(base, a, now).threw then Load(base, a, now) else Load(Load(base, a, now).peers, b, now)
    decreases |a|
  {
    hide ParseLine, GetLine;
    if a == [] {
      assert a + b == b;
      LoadNothing(base, now);
    } else {
      var (line, rest) := GetLine(a, NEWLINE).value;
      assert a[|a| - 1] in a;
      GetLineSplit(a, NEWLINE, b);
      RestIsWhole(a);
      match ParseLine(line, now)
      case Skip => LoadThen(base, rest, b, now);
      case Throws =>
      case Entry(p) => LoadThen(base[p.id := p], rest, b, now);
    }
  }

  /** Loading is a map merge for every file: what it adds, and whether it throws, do not
      depend on the table. */
  lemma {:induction false} LoadMerges(base: PeerTable, file: Text, now: int)
    ensures var alone := Load(map[], file, now);
            Load(base, file, now) == Loaded(base + alone.peers, alone.threw)
    decreases |file|
  {
    hide ParseLine, GetLine;
    match GetLine(file, NEWLINE)
    case None =>
      assert base + map[] == base;
    case Some((line, rest)) =>
      match ParseLine(line, now)
      case Skip => LoadMerges(base, rest, now);
      case Throws => assert base + map[] == base;
      case Entry(p) =>
        LoadMerges(base[p.id := p], rest, now);
        LoadMerges(map[p.id := p], rest, now);
        var alone := Load(map[], rest, now).peers;
        assert map[][p.id := p] == map[p.id := p];
        assert base[p.id := p] + alone == base + (map[p.id := p] + alone);
  }

  /** Everything in `part` is in `whole`. */
  ghost predicate Within(part: PeerTable, whole: PeerTable) {
    forall k :: k in part ==> k in whole && whole[k] == part[k]
  }

  /** What one saved peer leaves in the file, loaded by itself, neither throws nor brings
      in anything that does not belong to the table. */
  ghost predicate Harmless(peers: PeerTable, k: Text, now: int)
    requires k in peers
  {
    var alone := Load(map[], Line(peers[k]) + [NEWLINE], now);
    !alone.threw && Within(alone.peers, Restored(peers, now))
  }

  ghost predicate KeylessAreHarmless(peers: PeerTable, now: int) {
    forall k :: k in peers && peers[k].publicKey == [] ==> Harmless(peers, k, now)
  }

  lemma LineAlone(p: PeerInfo, now: int)
    requires Plain(p.id) && Plain(p.address)
    ensures Load(map[], Line(p) + [NEWLINE], now) ==
            Loaded(if p.publicKey == [] then map[] else map[p.id := p.(isConnected := false, lastSeen := now)], false)
  {
    hide ParseLine, Line;
    FieldsOfLine(p);
    ParseOfLine(p, now);
    GetLineAt(Line(p), NEWLINE, []);
    assert Line(p) + [NEWLINE] + [] == Line(p) + [NEWLINE];
    LoadNothing(map[], now);
    LoadNothing(map[p.id := p.(isConnected := false, lastSeen := now)], now);
    var offline := p.(isConnected := false, lastSeen := now);
    assert map[][p.id := offline] == map[p.id := offline];
  }

  lemma FirstPeer(base: PeerTable, peers: PeerTable, order: seq<Text>, now: int)
    requires order != [] && forall k :: k in order ==> k in peers
    ensures var alone := Load(map[], Line(peers[order[0]]) + [NEWLINE], now);
            Load(base, FileOf(peers, order), now) ==
            if alone.threw then Loaded(base + alone.peers, true)
            else Load(base + alone.peers, FileOf(peers, order[1..]), now)
  {
    hide Load, Line;
    var text := Line(peers[order[0]]) + [NEWLINE];
    LoadThen(base, text, FileOf(peers, order[1..]), now);
    LoadMerges(base, text, now);
    assert FileOf(peers, order) == text + FileOf(peers, order[1..]);
  }

  lemma {:induction false} HarmlessOrder(base: PeerTable, peers: PeerTable, order: seq<Text>, now: int)
    requires Keyed(peers) && Clean(Restored(peers, now))
    requires forall k :: k in order ==> k in peers && Harmless(peers, k, now)
    requires Within(base, Restored(peers, now))
    ensures var r := Load(base, FileOf(peers, order), now);
            && !r.threw && Within(r.peers, Restored(peers, now)) && Within(base, r.peers)
            && forall k :: k in order && k in Restored(peers, now) ==> k in r.peers
    decreases order
  {
    hide Load, Line, Clean;
    if order == [] {
      LoadNothing(base, now);
    } else {
      var k := order[0];
      var alone := Load(map[], Line(peers[k]) + [NEWLINE], now);
      FirstPeer(base, peers, order, now);
      assert order == [k] + order[1..] && Harmless(peers, k, now);
      HarmlessOrder(base + alone.peers, peers, order[1..], now);
      if k in Restored(peers, now) {
        RestoredIsPlain(peers, k, now);
        LineAlone(peers[k], now);
      }
    }
  }

  lemma RestoredIsPlain(peers: PeerTable, k: Text, now: int)
    requires Clean(Restored(peers, now)) && k in Restored(peers, now)
    ensures Plain(peers[k].id) && Plain(peers[k].address)
  {
    assert Plain(Restored(peers, now)[k].id);
  }

  lemma {:induction false} FileAppend(peers: PeerTable, a: seq<Text>, k: Text)
    requires (forall j :: j in a ==> j in peers) && k in peers
    ensures FileOf(peers, a + [k]) == FileOf(peers, a) + (Line(peers[k]) + [NEWLINE]) && WholeLines(FileOf(peers, a))
    decreases a
  {
    hide Line;
    var last := Line(peers[k]) + [NEWLINE];
    if a == [] {
      assert a + [k] == [k] && [k][1..] == [];
    } else {
      var first, tail := Line(peers[a[0]]) + [NEWLINE], FileOf(peers, a[1..]);
      FileAppend(peers, a[1..], k);
      assert (a + [k])[0] == a[0] && (a + [k])[1..] == a[1..] + [k];
      assert FileOf(peers, a + [k]) == first + (tail + last);
      assert first + (tail + last) == first + tail + last;
    }
  }

  lemma {:induction false} SomeOrder(keys: set<Text>) returns (order: seq<Text>)
    ensures Enumerates(order, keys)
    decreases |keys|
  {
    if keys == {} {
      order := [];
    } else {
      var k :| k in keys;
      var rest := SomeOrder(keys - {k});
      order := rest + [k];
    }
  }

  ghost predicate ComesBack(peers: PeerTable, order: seq<Text>, now: int)
    requires forall k :: k in order ==> k in peers
  {
    Load(map[], FileOf(peers, order), now) == Loaded(Restored(peers, now), false)
  }

  /** A table that comes back when `k` is walked last: k's own text is harmless. */
  lemma LastIsHarmless(peers: PeerTable, init: seq<Text>, k: Text, now: int)
    requires k in peers && (forall j :: j in init ==> j in peers) && ComesBack(peers, init + [k], now)
    ensures Harmless(peers, k, now)
  {
    hide Load, Line;
    var text := Line(peers[k]) + [NEWLINE];
    FileAppend(peers, init, k);
    LoadThen(map[], FileOf(peers, init), text, now);
    LoadMerges(Load(map[], FileOf(peers, init), now).peers, text, now);
  }

  lemma HarmlessIfBack(peers: PeerTable, k: Text, now: int)
    requires k in peers && forall order :: Enumerates(order, peers.Keys) ==> ComesBack(peers, order, now)
    ensures Harmless(peers, k, now)
  {
    hide Harmless, ComesBack;
    var init := SomeOrder(peers.Keys - {k});
    assert Enumerates(init + [k], peers.Keys);
    LastIsHarmless(peers, init, k, now);
  }

  lemma BackIfHarmless(peers: PeerTable, order: seq<Text>, now: int)
    requires Keyed(peers) && Clean(Restored(peers, now)) && Enumerates(order, peers.Keys)
    requires KeylessAreHarmless(peers, now)
    ensures ComesBack(peers, order, now)
  {
    hide Load, Line, Clean, FileOf;
    forall k | k in peers ensures Harmless(peers, k, now) {
      if peers[k].publicKey != [] {
        RestoredIsPlain(peers, k, now);
        LineAlone(peers[k], now);
      }
    }
    HarmlessOrder(map[], peers, order, now);
    assert Load(map[], FileOf(peers, order), now).peers == Restored(peers, now);
  }

  /** The exact condition, for every table: it comes back under every walk order if and
      only if no peer with a key has a bar or newline in its id or address, and the text
      of each peer without a key is harmless by itself. */
  lemma SaveLoadExactly(peers: PeerTable, now: int)
    requires Keyed(peers)
    ensures (forall order :: Enumerates(order, peers.Keys) ==> ComesBack(peers, order, now)) <==>
            Clean(Restored(peers, now)) && KeylessAreHarmless(peers, now)
  {
    hide Load, Line, Clean, FileOf, Harmless, Restored, Keyed;
    if forall order :: Enumerates(order, peers.Keys) ==> ComesBack(peers, order, now) {
      var some := SomeOrder(peers.Keys);
      CameBackIsClean(peers, some, now);
      forall k | k in peers ensures Harmless(peers, k, now) {
        HarmlessIfBack(peers, k, now);
      }
    } else if Clean(Restored(peers, now)) && KeylessAreHarmless(peers, now) {
      forall order | Enumerates(order, peers.Keys) ensures ComesBack(peers, order, now) {
        BackIfHarmless(peers, order, now);
      }
    }
  }

  /** Without a bar or newline, a peer without a key is harmless ... */
  lemma PlainIsHarmless(peers: PeerTable, k: Text, now: int)
    requires k in peers && peers[k].publicKey == [] && Plain(peers[k].id) && Plain(peers[k].address)
    ensures Harmless(peers, k, now)
  {
    LineAlone(peers[k], now);
  }

  /** ... and with a newline it may not be: if its id starts with the line of another
      peer, that peer comes back from a file of a table that never held it. */
  lemma StowawayComesBack(peers: PeerTable, k: Text, q: PeerInfo, tail: Text, now: int)
    requires Keyed(peers) && k in peers && peers[k].publicKey == [] && k == Line(q) + [NEWLINE] + tail
    requires Plain(q.id) && Plain(q.address) && q.publicKey != [] && q.id !in peers
    ensures q.id in Load(map[], Line(peers[k]) + [NEWLINE], now).peers
    ensures !Harmless(peers, k, now)
    ensures exists order :: Enumerates(order, peers.Keys) && !ComesBack(peers, order, now)
  {
    hide Load, ComesBack;
    var p, first := peers[k], Line(q) + [NEWLINE];
    var rest := tail + [BAR] + p.address + [BAR] + Decimal(p.port) + [BAR] + HexKey(p.publicKey) + [NEWLINE];
    assert Line(p) + [NEWLINE] == first + rest;
    hide Line, Decimal, HexKey;
    LineAlone(q, now);
    LoadThen(map[], first, rest, now);
    LoadMerges(Load(map[], first, now).peers, rest, now);
    assert q.id !in Restored(peers, now);
    if forall order :: Enumerates(order, peers.Keys) ==> ComesBack(peers, order, now) {
      HarmlessIfBack(peers, k, now);
    }
  }

  /** With a key for every peer, that is: no bar and no newline anywhere. */
  lemma SaveLoadWithKeys(peers: PeerTable, order: seq<Text>, now: int)
    requires Keyed(peers) && AllHaveKeys(peers) && Enumerates(order, peers.Keys)
    ensures ComesBack(peers, order, now) <==> Clean(peers)
  {
    hide Load, FileOf;
    assert map[] + Restored(peers, now) == Restored(peers, now);
    if Clean(peers) {
      SaveLoad(map[], peers, order, now);
    } else {
      CameBackIsClean(peers, order, now);
      var k :| k in peers && !(Plain(peers[k].id) && Plain(peers[k].address));
      assert k in Restored(peers, now) && !Clean(Restored(peers, now));
    }
  }

  // ---- Which lines are skipped, which throw, and what the others bring in

  /** The fields of a line: what stands before the first three bars, and after them. */
  lemma FieldsOf(id: Text, address: Text, port: Text, hex: Text)
    requires BAR !in id && BAR !in address && BAR !in port && NEWLINE !in hex
    ensures Fields(id + [BAR] + (address + [BAR] + (port + [BAR] + hex))) ==
            if hex == [] then None else Some((id, address, port, hex))
  {
    hide GetLine;
    GetLineAt(id, BAR, address + [BAR] + (port + [BAR] + hex));
    GetLineAt(address, BAR, port + [BAR] + hex);
    GetLineAt(port, BAR, hex);
    if hex != [] {
      GetLineLast(hex, NEWLINE);
    }
  }

  lemma NothingAfter(s: Text)
    requires BAR !in s
    ensures GetLine(s, BAR) == if s == [] then None else Some((s, []))
  {
    if s != [] {
      GetLineLast(s, BAR);
    }
  }

  /** With fewer than three bars there are not four fields. */
  lemma TooFewBars(id: Text, address: Text, port: Text)
    requires BAR !in id && BAR !in address && BAR !in port
    ensures Fields(id) == Fields(id + [BAR] + address) == Fields(id + [BAR] + (address + [BAR] + port)) == None
  {
    hide GetLine;
    NothingAfter(id);
    NothingAfter(address);
    NothingAfter(port);
    NothingAfter([]);
    GetLineAt(id, BAR, address);
    GetLineAt(id, BAR, address + [BAR] + port);
    GetLineAt(address, BAR, port);
  }

  /** The i-th pair of key characters; an odd last one stands alone. */
  function Pair(hex: Text, i: nat): Text
    requires 2 * i < |hex|
  {
    if 2 * i + 2 <= |hex| then hex[2 * i..2 * i + 2] else hex[2 * i..]
  }

  ghost predicate GoodPairs(hex: Text) {
    forall i: nat :: 2 * i < |hex| ==> Stoul(Pair(hex, i), 16).Number?
  }

  lemma LaterPair(hex: Text, i: nat)
    requires |hex| >= 2 && 2 * i < |hex[2..]|
    ensures Pair(hex[2..], i) == Pair(hex, i + 1)
  {
  }

  /** The key of a line: one byte per pair, if every pair can be read. */
  lemma {:induction false} KeyByPairs(hex: Text)
    ensures ParseKey(hex).Some? <==> GoodPairs(hex)
    ensures ParseKey(hex).Some? ==>
              && |ParseKey(hex).value| == (|hex| + 1) / 2
              && forall i: nat :: 2 * i < |hex| ==>
                   Stoul(Pair(hex, i), 16).Number? && ParseKey(hex).value[i] == Stoul(Pair(hex, i), 16).value % 256
    decreases |hex|
  {
    hide Stoul;
    if hex != [] {
      var n := if |hex| < 2 then |hex| else 2;
      var rest := hex[n..];
      KeyByPairs(rest);
      assert Pair(hex, 0) == hex[..n];
      forall i: nat | 2 * i < |rest| ensures Pair(rest, i) == Pair(hex, i + 1) {
        LaterPair(hex, i);
      }
      if GoodPairs(hex) {
        forall i: nat | 2 * i < |rest| ensures Stoul(Pair(rest, i), 16).Number? {
          assert Stoul(Pair(hex, i + 1), 16).Number?;
        }
      }
      if ParseKey(hex).Some? {
        forall i: nat | 2 * i < |hex|
          ensures Stoul(Pair(hex, i), 16).Number? && ParseKey(hex).value[i] == Stoul(Pair(hex, i), 16).value % 256
        {
          if i > 0 {
            assert Pair(hex, i) == Pair(rest, i - 1);
          }
        }
      }
    }
  }

  /** What a line with four fields brings in, and exactly when it throws. */
  lemma LineExactly(line: Text, now: int)
    requires Fields(line).Some?
    ensures var (id, address, port, hex) := Fields(line).value;
            var r := ParseLine(line, now);
            && !r.Skip? && (r.Throws? <==> !Stoul(port, 10).Number? || !GoodPairs(hex))
            && (r.Entry? ==>
                  && r.peer.id == id && r.peer.address == address && !r.peer.isConnected && r.peer.lastSeen == now
                  && r.peer.port == Stoul(port, 10).value % 0x1_0000 && ParseKey(hex) == Some(r.peer.publicKey))
  {
    hide Stoul, Fields, GoodPairs;
    KeyByPairs(Fields(line).value.3);
  }

  /** The first line decides how a load goes on: skipped, thrown with everything so far
      kept, or entered. The newline of the last line may be missing. */
  lemma FirstLineDecides(base: PeerTable, line: Text, rest: Text, now: int)
    requires NEWLINE !in line
    ensures var r := ParseLine(line, now);
            && Load(base, line + [NEWLINE] + rest, now) ==
               (if r.Throws? then Loaded(base, true)
                else Load(if r.Entry? then base[r.peer.id := r.peer] else base, rest, now))
            && Load(base, line, now) == Load(base, line + [NEWLINE], now)
  {
    hide ParseLine, GetLine;
    GetLineAt(line, NEWLINE, rest);
    GetLineAt(line, NEWLINE, []);
    assert line + [NEWLINE] + [] == line + [NEWLINE];
    if line != [] {
      GetLineLast(line, NEWLINE);
    } else {
      EmptyLineIsSkipped(now);
      LoadNothing(base, now);
    }
  }

  lemma EmptyLineIsSkipped(now: int)
    ensures ParseLine([], now) == Skip
  {
  }

  /** A saved file in characters: "ab|h|5000|0aff" and a newline. */
  lemma SavedText(connected: bool, seen: int)
    ensures var p := PeerInfo([97, 98], [104], 5000, [10, 255], connected, seen);
            FileOf(map[p.id := p], [p.id]) ==
            [97, 98, 124, 104, 124, 53, 48, 48, 48, 124, 48, 97, 102, 102, 10]
  {
    var p := PeerInfo([97, 98], [104], 5000, [10, 255], connected, seen);
    assert Decimal(5) == [53] && Decimal(50) == [53, 48] && Decimal(500) == [53, 48, 48];
    assert Decimal(5000) == [53, 48, 48, 48];
    assert [10, 255][1..] == [255] && [255][1..] == [];
    assert HexKey([255]) == [102, 102] && HexKey([10, 255]) == [48, 97, 102, 102];
    assert [p.id][1..] == [];
  }

  // ---- A clock that moves while the file is read

  /** Load, asking the clock once for each entry. */
  function LoadAt(peers: PeerTable, file: Text, clock: nat -> int, i: nat): Loaded
    decreases |file|
  {
    match GetLine(file, NEWLINE)
    case None => Loaded(peers, false)
    case Some((line, rest)) =>
      match ParseLine(line, clock(i))
      case Skip => LoadAt(peers, rest, clock, i)
      case Throws => Loaded(peers, true)
      case Entry(p) => LoadAt(peers[p.id := p], rest, clock, i + 1)
  }

  function Timeless(peers: PeerTable): PeerTable {
    map k | k in peers :: peers[k].(lastSeen := 0)
  }

  lemma ParseStamp(line: Text, t: int, now: int)
    ensures var r := ParseLine(line, t);
            && (r.Entry? ==> r.peer.lastSeen == t && ParseLine(line, now) == Entry(r.peer.(lastSeen := now)))
            && (!r.Entry? ==> ParseLine(line, now) == r)
  {
    hide Fields, Stoul, ParseKey;
  }

  /** The clock only decides `lastSeen`: but for that, every file loads as it does at a
      fixed time, so that the laws above hold. */
  lemma {:induction false} ClockOnlyStamps(
      base: PeerTable, base': PeerTable, file: Text, clock: nat -> int, i: nat, now: int)
    requires Timeless(base) == Timeless(base')
    ensures var r, fixed := LoadAt(base, file, clock, i), Load(base', file, now);
            r.threw == fixed.threw && Timeless(r.peers) == Timeless(fixed.peers)
    decreases |file|
  {
    hide ParseLine, GetLine, Timeless;
    match GetLine(file, NEWLINE)
    case None =>
    case Some((line, rest)) =>
      ParseStamp(line, clock(i), now);
      match ParseLine(line, clock(i))
      case Skip => ClockOnlyStamps(base, base', rest, clock, i, now);
      case Throws =>
      case Entry(p) =>
        SameEntry(base, base', p, now);
        ClockOnlyStamps(base[p.id := p], base'[p.id := p.(lastSeen := now)], rest, clock, i + 1, now);
  }

  lemma SameEntry(base: PeerTable, base': PeerTable, p: PeerInfo, now: int)
    requires Timeless(base) == Timeless(base')
    ensures Timeless(base[p.id := p]) == Timeless(base'[p.id := p.(lastSeen := now)])
  {
    assert Timeless(base[p.id := p]) == Timeless(base)[p.id := p.(lastSeen := 0)];
    assert Timeless(base'[p.id := p.(lastSeen := now)]) == Timeless(base')[p.id := p.(lastSeen := 0)];
  }

  ghost predicate Stamped(base: PeerTable, peers: PeerTable, clock: nat -> int, i: nat) {
    forall k :: k in peers ==>
      (k in base && peers[k] == base[k]) || exists j: nat :: i <= j && peers[k].lastSeen == clock(j)
  }

  /** An entry is the old one, or has one of the times that the clock gave. */
  lemma {:induction false} KeptOrStamped(base: PeerTable, file: Text, clock: nat -> int, i: nat)
    ensures Stamped(base, LoadAt(base, file, clock, i).peers, clock, i)
    decreases |file|
  {
    hide ParseLine, GetLine;
    match GetLine(file, NEWLINE)
    case None =>
    case Some((line, rest)) =>
      ParseStamp(line, clock(i), clock(i));
      match ParseLine(line, clock(i))
      case Skip => KeptOrStamped(base, rest, clock, i);
      case Throws =>
      case Entry(p) => KeptOrStamped(base[p.id := p], rest, clock, i + 1);
  }

  /** The i-th peer written gets the i-th time the clock gives. */
  lemma {:induction false} StampsInOrder(
      base: PeerTable, peers: PeerTable, order: seq<Text>, clock: nat -> int, from: nat, k: nat)
    requires Keyed(peers) && Clean(peers) && AllHaveKeys(peers) && k < |order|
    requires forall j :: j in order ==> j in peers
    requires forall i, j :: 0 <= i < j < |order| ==> order[i] != order[j]
    ensures var r := LoadAt(base, FileOf(peers, order), clock, from).peers;
            order[k] in r && r[order[k]] == peers[order[k]].(isConnected := false, lastSeen := clock(from + k))
    decreases order
  {
    hide LoadAt, FileOf, Clean;
    var head, tail := order[0], order[1..];
    var p := peers[head].(isConnected := false, lastSeen := clock(from));
    assert head in order;
    LoadAtStep(base, peers, order, clock, from);
    if k > 0 {
      StampsInOrder(base[head := p], peers, tail, clock, from + 1, k - 1);
    } else {
      OthersStay(base[head := p], peers, tail, clock, from + 1, head);
    }
  }

  lemma LoadAtStep(base: PeerTable, peers: PeerTable, order: seq<Text>, clock: nat -> int, from: nat)
    requires Keyed(peers) && Clean(peers) && AllHaveKeys(peers) && order != []
    requires forall j :: j in order ==> j in peers
    ensures var head := order[0];
            LoadAt(base, FileOf(peers, order), clock, from) ==
            LoadAt(base[head := peers[head].(isConnected := false, lastSeen := clock(from))],
              FileOf(peers, order[1..]), clock, from + 1)
  {
    hide Line, ParseLine, GetLine;
    var p := peers[order[0]];
    FieldsOfLine(p);
    ParseOfLine(p, clock(from));
    GetLineAt(Line(p), NEWLINE, FileOf(peers, order[1..]));
  }

  lemma {:induction false} OthersStay(
      base: PeerTable, peers: PeerTable, order: seq<Text>, clock: nat -> int, from: nat, id: Text)
    requires Keyed(peers) && Clean(peers) && AllHaveKeys(peers) && id in base && id !in order
    requires forall j :: j in order ==> j in peers
    ensures var r := LoadAt(base, FileOf(peers, order), clock, from).peers; id in r && r[id] == base[id]
    decreases order
  {
    if order != [] {
      hide LoadAt, FileOf, Clean;
      assert order[0] in order;
      LoadAtStep(base, peers, order, clock, from);
      OthersStay(base[order[0] := peers[order[0]].(isConnected := false, lastSeen := clock(from))],
        peers, order[1..], clock, from + 1, id);
    }
  }

  /** The round trip with a moving clock. */
  lemma SaveLoadAt(base: PeerTable, peers: PeerTable, order: seq<Text>, clock: nat -> int)
    requires Keyed(peers) && Clean(peers) && Enumerates(order, peers.Keys)
    ensures var r := LoadAt(base, FileOf(peers, order), clock, 0);
            && !r.threw && Timeless(r.peers) == Timeless(base + Restored(peers, 0))
            && Stamped(base, r.peers, clock, 0)
  {
    hide Load, LoadAt, FileOf, Timeless, Stamped;
    SaveLoad(base, peers, order, 0);
    ClockOnlyStamps(base, base, FileOf(peers, order), clock, 0, 0);
    KeptOrStamped(base, FileOf(peers, order), clock, 0);
  }

  // ---- The manager

  class PeerManager {
    var peers: PeerTable

    constructor ()
      ensures peers == map[]
    {
      peers := map[];
    }

    method AddPeer(peer: PeerInfo)
      modifies this
      ensures peers == old(peers)[peer.id := peer]
      ensures old(Keyed(peers)) ==> Keyed(peers)
    {
      peers := peers[peer.id := peer];
    }

    method UpdatePeerStatus(id: Text, connected: bool, now: int)
      modifies this
      ensures peers == WithStatus(old(peers), id, connected, now)
      ensures old(Keyed(peers)) ==> Keyed(peers)
    {
      if id in peers {
        peers := peers[id := peers[id].(isConnected := connected, lastSeen := now)];
      }
    }

    method SavePeersToFile(order: seq<Text>) returns (file: Text)
      requires Enumerates(order, peers.Keys)
      ensures file == FileOf(peers, order)
    {
      hide Line;
      file := [];
      var i := 0;
      while i < |order|
        invariant 0 <= i <= |order|
        invariant file + FileOf(peers, order[i..]) == FileOf(peers, order)
      {
        var line := PrintLine(peers[order[i]]);
        assert order[i..][1..] == order[i + 1..];
        assert FileOf(peers, order[i..]) == line + [NEWLINE] + FileOf(peers, order[i + 1..]);
        file := file + (line + [NEWLINE]);
        i := i + 1;
      }
    }

    static method PrintLine(peer: PeerInfo) returns (line: Text)
      ensures line == Line(peer)
    {
      line := peer.id + [BAR] + peer.address + [BAR] + Decimal(peer.port) + [BAR];
      var hex := PrintKey(peer.publicKey);
      line := line + hex;
    }

    static method PrintKey(key: seq<byte>) returns (hex: Text)
      ensures hex == HexKey(key)
    {
      hide Hex2;
      hex := [];
      var j := 0;
      while j < |key|
        invariant 0 <= j <= |key|
        invariant hex + HexKey(key[j..]) == HexKey(key)
      {
        assert key[j..][1..] == key[j + 1..];
        assert HexKey(key[j..]) == Hex2(key[j]) + HexKey(key[j + 1..]);
        assert hex + (Hex2(key[j]) + HexKey(key[j + 1..])) == hex + Hex2(key[j]) + HexKey(key[j + 1..]);
        hex := hex + Hex2(key[j]);
        j := j + 1;
      }
      assert hex + [] == hex;
    }

    /** `clock(i)` is what the i-th call of the clock returns. */
    method LoadPeersFromFile(file: Text, clock: nat -> int) returns (threw: bool)
      modifies this
      ensures Loaded(peers, threw) == LoadAt(old(peers), file, clock, 0)
    {
      var rest, calls := file, 0;
      while rest != []
        invariant LoadAt(peers, rest, clock, calls) == LoadAt(old(peers), file, clock, 0)
        decreases |rest|
      {
        var got := GetLine(rest, NEWLINE).value;
        var line := got.0;
        var fields := Fields(line);
        if fields.Some? {
          var (id, address, portStr, keyHex) := fields.value;
          var port := Stoul(portStr, 10);
          if !port.Number? {
            return true;
          }
          var key, bad := DecodeKey(keyHex);
          if bad {
            return true;
          }
          var peer := PeerInfo(id, address, port.value % 0x1_0000, key, false, clock(calls));
          peers, calls := peers[id := peer], calls + 1;
        }
        rest := got.1;
      }
      threw := false;
    }

    static method DecodeKey(keyHex: Text) returns (key: seq<byte>, bad: bool)
      ensures bad <==> ParseKey(keyHex).None?
      ensures !bad ==> ParseKey(keyHex) == Some(key)
    {
      hide Stoul;
      key := [];
      var i := 0;
      Unprefixed(ParseKey(keyHex));
      while i < |keyHex|
        invariant 0 <= i
        invariant ParseKey(keyHex) == Prepend(key, ParseKey(From(keyHex, i)))
      {
        var n := if |keyHex| - i < 2 then |keyHex| - i else 2;
        var v := Stoul(keyHex[i..i + n], 16);
        assert From(keyHex, i)[..n] == keyHex[i..i + n];
        if !v.Number? {
          return key, true;
        }
        ParseKeyStep(From(keyHex, i), key);
        key := key + [v.value % 256];
        assert From(From(keyHex, i), 2) == From(keyHex, i + 2);
        i := i + 2;
      }
      assert key + [] == key;
      bad := false;
    }
  }

  /** What is left of a string from position `i`, which may lie past its end. */
  function From(s: Text, i: nat): (r: Text)
    ensures i <= |s| ==> r == s[i..]
  {
    if i <= |s| then s[i..] else []
  }

  ghost function Prepend(head: seq<byte>, tail: Option<seq<byte>>): Option<seq<byte>> {
    match tail
    case None => None
    case Some(t) => Some(head + t)
  }

  lemma Unprefixed(tail: Option<seq<byte>>)
    ensures Prepend([], tail) == tail
  {
    if tail.Some? {
      assert [] + tail.value == tail.value;
    }
  }

  lemma ParseKeyStep(hex: Text, key: seq<byte>)
    requires hex != []
    requires Stoul(hex[..if |hex| < 2 then |hex| else 2], 16).Number?
    ensures var v := Stoul(hex[..if |hex| < 2 then |hex| else 2], 16).value;
            Prepend(key, ParseKey(hex)) == Prepend(key + [v % 256], ParseKey(From(hex, 2)))
  {
    hide Stoul;
    var n := if |hex| < 2 then |hex| else 2;
    assert hex[n..] == From(hex, 2);
    var v := Stoul(hex[..n], 16).value;
    if ParseKey(hex[n..]).Some? {
      var t := ParseKey(hex[n..]).value;
      assert key + ([v % 256] + t) == (key + [v % 256]) + t;
    }
  }
}
