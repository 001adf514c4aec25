/**
 * The EQ settings' stereo-pairing logic: which roster entry the panel shows,
 * which entries it may pair with, the partner it proposes, and the request
 * that creates the pair with its channel map.
 */
module EqPairing {
  import opened Wrappers

  /** One entry of the zone-player roster. */
  datatype ZonePlayer = ZonePlayer(
    uuid: string,
    host: string,
    zoneName: string,
    model: string,
    isPaired: bool,
    isStereo: bool)

  /** The side the selected player takes in a new pair. */
  datatype Channel = LF | RF

  /** What a roster search looks for. */
  datatype Key = ByHost(host: string) | ByUuid(uuid: string)

  predicate Matches(p: ZonePlayer, k: Key) {
    match k
    case ByHost(h) => p.host == h
    case ByUuid(u) => p.uuid == u
  }

  /** The index of the first roster entry matching `k`, or `|players|` when there is none. */
  function FindIndex(players: seq<ZonePlayer>, k: Key): (i: nat)
    ensures i <= |players|
    ensures forall j :: 0 <= j < i ==> !Matches(players[j], k)
    ensures i < |players| ==> Matches(players[i], k)
    decreases |players|
  {
    if players == [] then 0
    else if Matches(players[0], k) then 0
    else 1 + FindIndex(players[1..], k)
  }

  /** `players.find(...)`: the first matching entry (the one at `FindIndex`), or `undefined`. */
  function Find(players: seq<ZonePlayer>, k: Key): (r: Option<ZonePlayer>)
    ensures r.None? <==> forall j :: 0 <= j < |players| ==> !Matches(players[j], k)
    ensures r.Some? ==> FindIndex(players, k) < |players| && r.value == players[FindIndex(players, k)]
    ensures r.Some? ==> r.value in players && Matches(r.value, k)
  {
    var i := FindIndex(players, k);
    if i < |players| then Some(players[i]) else None
  }

  /** `p` may be paired with `player`: same model, another device, not already paired. */
  predicate CanPairWith(player: ZonePlayer, p: ZonePlayer) {
    p.model == player.model && p.uuid != player.uuid && !p.isPaired
  }

  /** The `filter` of the roster by `CanPairWith`. */
  function PairablePlayers(players: seq<ZonePlayer>, player: ZonePlayer): (r: seq<ZonePlayer>)
    ensures forall p :: p in r <==> p in players && CanPairWith(player, p)
    ensures |r| <= |players|
    decreases |players|
  {
    if players == [] then []
    else if CanPairWith(player, players[0]) then [players[0]] + PairablePlayers(players[1..], player)
    else PairablePlayers(players[1..], player)
  }

  /** `a` is obtained from `b` by deleting entries, without reordering. */
  predicate SubsequenceOf(a: seq<ZonePlayer>, b: seq<ZonePlayer>)
    decreases |b|
  {
    if a == [] then true
    else if b == [] then false
    else (a[0] == b[0] && SubsequenceOf(a[1..], b[1..])) || SubsequenceOf(a, b[1..])
  }

  /** The pairable list keeps the roster's order. */
  lemma {:induction false} PairablePreservesOrder(players: seq<ZonePlayer>, player: ZonePlayer)
    ensures SubsequenceOf(PairablePlayers(players, player), players)
    decreases |players|
  {
    if players != [] {
      PairablePreservesOrder(players[1..], player);
      var rest := PairablePlayers(players[1..], player);
      if CanPairWith(player, players[0]) {
        assert ([players[0]] + rest)[1..] == rest;
      } else if rest != [] {
        assert SubsequenceOf(rest, players[1..]);
      }
    }
  }

  /** A JavaScript value that is neither `undefined` nor the empty string. */
  predicate Truthy(o: Option<string>) {
    o.Some? && o.value != ""
  }

  /**
   * What `getDerivedStateFromProps` does with the panel's props: nothing, or the
   * derived state. The player is `None` (`undefined`) when the roster is empty.
   */
  datatype Derivation =
    | NoUpdate
    | Update(player: Option<ZonePlayer>, pairablePlayers: seq<ZonePlayer>, pairWith: Option<string>)

  /**
   * The state derived from the roster, the selected host (`""` stands for any
   * falsy host), the panel's visibility and the `pairWith` already in state.
   */
  function DerivedState(players: seq<ZonePlayer>, host: string, visible: bool, prior: Option<string>): (r: Derivation)
    ensures r.NoUpdate? <==> host == "" || !visible
    ensures r.Update? ==> (r.player.None? <==> players == [])
    ensures r.Update? && players == [] ==> r.pairablePlayers == []
    ensures r.Update? && r.player.Some? ==> r.player.value in players
    ensures r.Update? && r.player.Some? ==>
      forall p :: p in r.pairablePlayers <==> p in players && CanPairWith(r.player.value, p)
    ensures r.Update? && r.player.Some? ==> r.player.value !in r.pairablePlayers
    ensures r.Update? && Truthy(prior) ==> r.pairWith == prior
    ensures r.Update? && !Truthy(prior) && r.pairablePlayers != [] ==> r.pairWith == Some(r.pairablePlayers[0].uuid)
    ensures r.Update? && !Truthy(prior) && r.pairablePlayers == [] ==> r.pairWith == None
  {
    if host == "" || !visible then NoUpdate
    else
      var found := Find(players, ByHost(host));
      var player := if found.Some? then found else if players != [] then Some(players[0]) else None;
      var pairable := if player.Some? then PairablePlayers(players, player.value) else [];
      var pairWith := if Truthy(prior) then prior
                      else if pairable != [] then Some(pairable[0].uuid)
                      else None;
      Update(player, pairable, pairWith)
  }

  /** The panel shows the first roster entry on the selected host, or the first entry when none is on it. */
  lemma SelectedPlayer(players: seq<ZonePlayer>, host: string, prior: Option<string>)
    requires host != ""
    ensures DerivedState(players, host, true, prior).Update?
    ensures forall i :: 0 <= i < |players| && players[i].host == host && (forall j :: 0 <= j < i ==> players[j].host != host) ==>
      DerivedState(players, host, true, prior).player == Some(players[i])
    ensures players != [] && (forall j :: 0 <= j < |players| ==> players[j].host != host) ==>
      DerivedState(players, host, true, prior).player == Some(players[0])
    ensures players == [] ==> DerivedState(players, host, true, prior).player == None
  {
    var k := FindIndex(players, ByHost(host));
    forall i | 0 <= i < |players| && players[i].host == host && (forall j :: 0 <= j < i ==> players[j].host != host)
      ensures k == i
    {
      assert Matches(players[i], ByHost(host));
    }
  }

  /** With nothing usable in state, the proposed partner is an eligible roster entry, and there is one exactly when the pairable list is non-empty. */
  lemma DefaultPartnerIsPairable(players: seq<ZonePlayer>, host: string, prior: Option<string>)
    requires !Truthy(prior)
    ensures var r := DerivedState(players, host, true, prior);
      r.Update? ==>
        (r.pairWith.Some? <==> r.pairablePlayers != []) &&
        (r.pairWith.Some? ==> r.player.Some?) &&
        (r.pairWith.Some? && r.player.Some? ==>
          exists p :: p in players && CanPairWith(r.player.value, p) && p.uuid == r.pairWith.value)
  {
    var r := DerivedState(players, host, true, prior);
    if r.Update? && r.pairWith.Some? {
      assert r.pairablePlayers[0] in r.pairablePlayers;
    }
  }

  /** The channel-map template: the left UUID, `:LF,LF;`, the right UUID, `:RF,RF`. */
  function ChannelMap(left: string, right: string): (m: string)
    ensures |m| == |left| + |right| + 13
    ensures m[..|left|] == left && m[|left|..|left| + 7] == ":LF,LF;"
    ensures m[|left| + 7..|left| + 7 + |right|] == right && m[|left| + 7 + |right|..] == ":RF,RF"
  {
    left + ":LF,LF;" + right + ":RF,RF"
  }

  /** A template literal prints `undefined` for a missing value. */
  function Text(o: Option<string>): string {
    if o.Some? then o.value else "undefined"
  }

  /** The `createPair(target, channelMap)` request. */
  datatype PairRequest = CreatePair(target: Option<ZonePlayer>, channelMap: string)

  /** `_createPair`: the selected player joins `pairWith` on side `pairOn`. */
  function CreatePairRequest(players: seq<ZonePlayer>, player: ZonePlayer, pairWith: Option<string>, pairOn: Channel): (r: PairRequest)
    ensures pairOn == RF ==> r.target == Some(player) && r.channelMap == ChannelMap(player.uuid, Text(pairWith))
    ensures pairOn == LF ==> r.channelMap == ChannelMap(Text(pairWith), player.uuid)
    ensures pairOn == LF && pairWith.None? ==> r.target == None
    ensures pairOn == LF && pairWith.Some? ==> r.target == Find(players, ByUuid(pairWith.value))
  {
    var left := if pairOn == RF then player.uuid else Text(pairWith);
    var right := if pairOn == LF then player.uuid else Text(pairWith);
    var target := if pairOn == RF then Some(player)
                  else if pairWith.Some? then Find(players, ByUuid(pairWith.value))
                  else None;
    CreatePair(target, ChannelMap(left, right))
  }

  /** The index of the first `':'` in `s`, or `|s|`. */
  function IndexOfColon(s: string): (i: nat)
    ensures i <= |s|
    ensures forall j :: 0 <= j < i ==> s[j] != ':'
    ensures i < |s| ==> s[i] == ':'
    decreases |s|
  {
    if s == [] then 0 else if s[0] == ':' then 0 else 1 + IndexOfColon(s[1..])
  }

  /**
   * Reads a channel map back into its left and right UUIDs; the inverse of
   * `ChannelMap`. Whatever it accepts is the channel map of the two colon-free
   * UUIDs it returns.
   */
  function ParseChannelMap(s: string): (r: Option<(string, string)>)
    ensures r.Some? ==> s == r.value.0 + ":LF,LF;" + r.value.1 + ":RF,RF"
    ensures r.Some? ==> ':' !in r.value.0 && ':' !in r.value.1
  {
    var i := IndexOfColon(s);
    var rest := s[i..];
    if |rest| < 7 || rest[..7] != ":LF,LF;" then None
    else
      var tail := rest[7..];
      var j := IndexOfColon(tail);
      if tail[j..] == ":RF,RF" then
        Some((s[..i], tail[..j]))
      else None
  }

  lemma FirstColonAfter(a: string, b: string)
    requires ':' !in a && |b| > 0 && b[0] == ':'
    ensures IndexOfColon(a + b) == |a|
  {
    var s := a + b;
    assert forall j :: 0 <= j < |a| ==> s[j] == a[j];
    assert s[|a|] == ':';
  }

  /** Colon-free UUIDs are read back exactly from the channel map. */
  lemma ParseFormatRoundTrip(left: string, right: string)
    requires ':' !in left && ':' !in right
    ensures ParseChannelMap(ChannelMap(left, right)) == Some((left, right))
  {
    var s := ChannelMap(left, right);
    var tailPart := ":RF,RF";
    assert s == left + (":LF,LF;" + right + tailPart);
    FirstColonAfter(left, ":LF,LF;" + right + tailPart);
    var rest := s[|left|..];
    assert rest == ":LF,LF;" + right + tailPart;
    assert rest[..7] == ":LF,LF;";
    var tail := rest[7..];
    assert tail == right + tailPart;
    FirstColonAfter(right, tailPart);
    assert tail[|right|..] == tailPart;
    assert s[..|left|] == left;
    assert tail[..|right|] == right;
  }

  /**
   * With a pairable partner proposed, the channel map names two different
   * UUIDs, the selected player on the side chosen and the partner on the other,
   * and a left-side pair is sent to a roster entry carrying the partner's UUID.
   */
  lemma PairingDirectiveWellFormed(players: seq<ZonePlayer>, player: ZonePlayer, partner: ZonePlayer, pairOn: Channel)
    requires player in players && partner in PairablePlayers(players, player)
    requires ':' !in player.uuid && ':' !in partner.uuid
    ensures var r := CreatePairRequest(players, player, Some(partner.uuid), pairOn);
      && ParseChannelMap(r.channelMap).Some?
      && var (left, right) := ParseChannelMap(r.channelMap).value;
      && left != right
      && (pairOn == LF ==> left == partner.uuid && right == player.uuid)
      && (pairOn == RF ==> left == player.uuid && right == partner.uuid)
      && r.target.Some? && r.target.value in players
      && (pairOn == LF ==> r.target.value.uuid == partner.uuid)
      && (pairOn == RF ==> r.target.value == player)
  {
    if pairOn == LF {
      ParseFormatRoundTrip(partner.uuid, player.uuid);
      assert Matches(partner, ByUuid(partner.uuid));
    } else {
      ParseFormatRoundTrip(player.uuid, partner.uuid);
    }
  }

  /**
   * A prior `pairWith` is kept even when it names the selected player itself:
   * with players A and B of one model, B selected and `pairWith` still "B", a
   * left-side pair names B on both channels.
   */
  lemma StalePairWithPairsPlayerWithItself()
    ensures var a := ZonePlayer("A", "ha", "Kitchen", "S1", false, true);
      var b := ZonePlayer("B", "hb", "Living Room", "S1", false, true);
      var r := DerivedState([a, b], "hb", true, Some("B"));
      && r == Update(Some(b), [a], Some("B"))
      && CreatePairRequest([a, b], b, r.pairWith, LF) == CreatePair(Some(b), "B:LF,LF;B:RF,RF")
  {
    var a := ZonePlayer("A", "ha", "Kitchen", "S1", false, true);
    var b := ZonePlayer("B", "hb", "Living Room", "S1", false, true);
    var players := [a, b];
    assert players[1..] == [b] && [b][1..] == [];
    assert FindIndex(players, ByHost("hb")) == 1;
    assert Find(players, ByHost("hb")) == Some(b);
    assert PairablePlayers(players, b) == [a];
    assert ChannelMap("B", "B") == "B:LF,LF;B:RF,RF";
    assert FindIndex(players, ByUuid("B")) == 1;
  }
}
