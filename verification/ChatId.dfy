/** The chat_id codecs: peerBotAPIChatID (internal/client/peer_resolve.go), the two parsers
    that look at the decimal prefix "-100" (parseChatID and extractChannelID in
    internal/client/chat_info.go, ResolvePeer in internal/convert/peer.go), and the one that
    compares with -10^12 (dialogIDToInputPeer in internal/client/files_download.go). */
module ChatId {
  import opened Bytes
  import opened Decimal

  const TRILLION := 1_000_000_000_000

  datatype Kind = User | Group | Channel

  datatype Peer = Peer(kind: Kind, id: int)

  datatype ParseError = Empty | Username | NotAnInteger | NotFound | InvalidChannel

  function ChatNumber(p: Peer): int {
    match p.kind
    case User => p.id
    case Group => -p.id
    case Channel => -TRILLION - p.id
  }

  /** peerBotAPIChatID */
  function Print(p: Peer): string { FormatInt(ChatNumber(p)) }

  /** parseChatID */
  function ParseChatID(s: string): Result<(int, Kind), ParseError> {
    if s == "" then Err(Empty)
    else if s[0] == '@' then Err(Username)
    else
      var id := ParseInt(s, TWO_63);
      if id.None? || id.value == 0 then Err(NotFound)
      else if id.value < 0 then Ok((id.value, if "-100" <= FormatInt(id.value) then Channel else Group))
      else Ok((id.value, User))
  }

  /** extractChannelID: digits that do not parse count as 0. */
  function ExtractChannelID(id: int): int {
    var s := FormatInt(id);
    if "-100" <= s then
      var c := ParseInt(s[4..], TWO_63);
      if c.Some? then c.value else 0
    else id
  }

  function FromStore(store: int -> Option<Kind>, p: Peer): Peer {
    if store(p.id).Some? then Peer(store(p.id).value, p.id) else p
  }

  /** The integer branch of ResolvePeer. The peer store is keyed by id alone. */
  function ResolvePeer(s: string, store: int -> Option<Kind>): Result<Peer, ParseError> {
    var id := ParseInt(s, TWO_63);
    if id.None? then Err(NotAnInteger)
    else if id.value == 0 then Err(NotFound)
    else if id.value < 0 then
      if "-100" <= FormatInt(id.value) then
        var c := ExtractChannelID(id.value);
        if c <= 0 then Err(InvalidChannel) else Ok(FromStore(store, Peer(Channel, c)))
      else Ok(Peer(Group, -id.value))
    else Ok(FromStore(store, Peer(User, id.value)))
  }

  /** dialogIDToInputPeer */
  function FromDialogID(id: int): Peer {
    if id > 0 then Peer(User, id)
    else if id <= -TRILLION then Peer(Channel, -id - TRILLION)
    else Peer(Group, -id)
  }

  // ---------- decimals that start with 100 ----------

  /** How many digits follow a leading 100, if the numeral of n has one. */
  function Hundred(n: nat): Option<nat> {
    if n == 100 then Some(0)
    else if n < 1000 then None
    else if Hundred(n / 10).Some? then Some(Hundred(n / 10).value + 1) else None
  }

  lemma {:induction false} HundredRange(n: nat)
    ensures Hundred(n).Some? ==> 100 * Pow10(Hundred(n).value) <= n < 101 * Pow10(Hundred(n).value)
  {
    if n >= 1000 { HundredRange(n / 10); }
  }

  lemma {:induction false} HundredAt(n: nat, k: nat)
    requires 100 * Pow10(k) <= n < 101 * Pow10(k)
    ensures Hundred(n) == Some(k)
  {
    if k > 0 {
      assert Pow10(k) == 10 * Pow10(k - 1);
      HundredAt(n / 10, k - 1);
    }
  }

  lemma {:induction false} FormatLength(n: nat)
    ensures |FormatNat(n)| >= 3 <==> n >= 100
    ensures n < 1000 ==> |FormatNat(n)| <= 3
  {
    if n >= 10 {
      FormatLength(n / 10);
      if 100 <= n < 1000 { assert FormatNat(n / 10) == FormatNat(n / 100) + [DigitChar(n / 10 % 10)]; }
      if n < 100 { assert FormatNat(n / 10) == [DigitChar(n / 10)]; }
    }
  }

  lemma ThreeDigits(n: nat)
    requires 100 <= n < 1000
    ensures FormatNat(n) == [DigitChar(n / 100), DigitChar(n / 10 % 10), DigitChar(n % 10)]
  {
    assert n / 10 / 10 == n / 100;
    assert FormatNat(n / 100) == [DigitChar(n / 100)];
    assert FormatNat(n / 10) == FormatNat(n / 100) + [DigitChar(n / 10 % 10)];
  }

  lemma SmallHundred(n: nat)
    requires n < 1000
    ensures "100" <= FormatNat(n) <==> n == 100
    ensures n == 100 ==> FormatNat(n) == "100"
  {
    FormatLength(n);
    if n >= 100 {
      ThreeDigits(n);
      var s := FormatNat(n);
      assert "100" <= s <==> s[0] == '1' && s[1] == '0' && s[2] == '0' by { assert s[..3] == s; }
      assert n == 100 * (n / 100) + 10 * (n / 10 % 10) + n % 10;
    }
  }

  /** The numeral starts with 100 exactly when there is such a k, and what follows is the
      rest of the number. */
  lemma {:induction false} HundredDecimal(n: nat)
    ensures "100" <= FormatNat(n) <==> Hundred(n).Some?
    ensures Hundred(n).Some? ==> DigitsValue(FormatNat(n)[3..]) == n - 100 * Pow10(Hundred(n).value)
  {
    if n < 1000 {
      SmallHundred(n);
    } else {
      HundredDecimal(n / 10);
      FormatLength(n / 10);
      var s, t := FormatNat(n), FormatNat(n / 10);
      assert s[..3] == t[..3];
      if Hundred(n).Some? {
        assert s[3..] == t[3..] + [DigitChar(n % 10)];
        assert s[3..][..|s[3..]| - 1] == t[3..];
        assert Pow10(Hundred(n).value) == 10 * Pow10(Hundred(n / 10).value);
      }
    }
  }

  lemma MinusPrefix(t: string)
    ensures "-100" <= "-" + t <==> "100" <= t
    ensures "100" <= t ==> ("-" + t)[4..] == t[3..]
  {
    if |t| >= 3 {
      var s := "-" + t;
      assert s[..4] == "-" + t[..3];
      assert ("-" + t[..3])[1..] == t[..3];
      assert "-100"[1..] == "100";
    }
  }

  /** Digits without a sign are read as their value; none at all are not read. */
  lemma ParseDigits(t: string)
    requires (forall i :: 0 <= i < |t| ==> IsDigit(t[i])) && DigitsValue(t) < TWO_63
    ensures ParseInt(t, TWO_63) == if t == "" then None else Some(DigitsValue(t))
  {
  }

  /** The prefix parser on a negative number. */
  lemma PrefixParse(n: int)
    requires 0 < n <= TWO_63
    ensures "-100" <= FormatInt(-n) <==> Hundred(n).Some?
    ensures Hundred(n).Some? ==> ExtractChannelID(-n) == n - 100 * Pow10(Hundred(n).value)
  {
    hide Hundred, ParseInt, DigitsValue, Pow10;
    var t := FormatNat(n);
    HundredDecimal(n);
    MinusPrefix(t);
    if Hundred(n).Some? {
      PowPositive(Hundred(n).value);
      ParseDigits(t[3..]);
      if t[3..] == "" { NoDigits(t[3..]); }
    }
  }

  lemma PowPositive(k: nat)
    ensures 100 * Pow10(k) > 0
  {
  }

  lemma NoDigits(t: string)
    requires t == ""
    ensures DigitsValue(t) == 0
  {
  }

  // ---------- round trips ----------

  predicate ValidPeer(p: Peer) { p.id > 0 && IsInt64(ChatNumber(p)) }

  /** Where the prefix parsers read back what was printed. */
  predicate PrefixSafe(p: Peer)
    requires p.id > 0
  {
    match p.kind
    case User => true
    case Group => !("100" <= FormatNat(p.id))
    case Channel => p.id < 10_000_000_000
  }

  /** Where the comparison with -10^12 does. */
  predicate ThresholdSafe(p: Peer) { p.kind.Group? ==> p.id < TRILLION }

  lemma Pow10OfTen()
    ensures Pow10(10) == 10_000_000_000
  {
    assert Pow10(4) == 10_000;
    assert Pow10(8) == 100_000_000;
  }

  lemma Printed(p: Peer)
    requires ValidPeer(p)
    ensures Print(p) != "" && Print(p)[0] != '@' && ParseInt(Print(p), TWO_63) == Some(ChatNumber(p))
  {
    ParseFormat(ChatNumber(p), TWO_63);
  }

  /** Reading the printed number of a channel gives the channel back exactly below 10^10. */
  lemma ChannelNumber(c: int)
    requires 0 < c && TRILLION + c <= TWO_63
    ensures Hundred(TRILLION + c).Some? && ExtractChannelID(-TRILLION - c) == c <==> c < 10_000_000_000
  {
    var n := TRILLION + c;
    Pow10OfTen();
    PrefixParse(n);
    HundredRange(n);
    if c < 10_000_000_000 { HundredAt(n, 10); }
  }

  /** The prefix parsers invert printing exactly where PrefixSafe says. */
  lemma PrefixRoundTrip(p: Peer)
    requires ValidPeer(p)
    ensures var r := ParseChatID(Print(p));
            r.Ok? && r.value.0 == ChatNumber(p)
            && (r.value.1 == p.kind && (p.kind.Channel? ==> ExtractChannelID(r.value.0) == p.id) <==> PrefixSafe(p))
  {
    Printed(p);
    match p.kind
    case User =>
    case Group =>
      PrefixParse(p.id);
      HundredDecimal(p.id);
    case Channel =>
      PrefixParse(TRILLION + p.id);
      ChannelNumber(p.id);
  }

  /** ResolvePeer inverts printing exactly there too, as long as the peer store does not hold
      another kind of peer under the same id; basic groups are never looked up. */
  lemma ResolveRoundTrip(p: Peer, store: int -> Option<Kind>)
    requires ValidPeer(p)
    ensures ResolvePeer(Print(p), store) == Ok(p)
       <==> PrefixSafe(p) && (p.kind.Group? || store(p.id).None? || store(p.id).value == p.kind)
  {
    hide FormatInt, ExtractChannelID, Hundred;
    Printed(p);
    match p.kind
    case User =>
    case Group =>
      PrefixParse(p.id);
      HundredDecimal(p.id);
    case Channel =>
      PrefixParse(TRILLION + p.id);
      ChannelNumber(p.id);
  }

  /** The comparison inverts the number itself exactly where ThresholdSafe says. */
  lemma ThresholdRoundTrip(p: Peer)
    requires ValidPeer(p)
    ensures FromDialogID(ChatNumber(p)) == p <==> ThresholdSafe(p)
  {
  }

  /** The leading 100 of a number from 10^12 on is its 10^12 exactly below 10^12 + 10^10. */
  lemma TrillionDigits(n: nat)
    requires n >= TRILLION
    ensures Hundred(n).Some? && 100 * Pow10(Hundred(n).value) == TRILLION <==> n < TRILLION + 10_000_000_000
  {
    Pow10OfTen();
    HundredRange(n);
    if n < TRILLION + 10_000_000_000 { HundredAt(n, 10); }
  }

  /** Which negative numbers the two codecs read alike: the basic groups below 10^12 whose
      decimal does not start with 100, and the channels below 10^10. (Numbers just above
      10^12 are read as channels by both, also where a basic group printed them.) */
  lemma CodecsAgree(n: int)
    requires 0 < n <= TWO_63
    ensures ResolvePeer(FormatInt(-n), _ => None) == Ok(FromDialogID(-n))
       <==> (n < TRILLION && !("100" <= FormatNat(n))) || TRILLION < n < TRILLION + 10_000_000_000
  {
    hide FormatInt, ExtractChannelID, Hundred, Pow10;
    ParseFormat(-n, TWO_63);
    PrefixParse(n);
    HundredDecimal(n);
    if n >= TRILLION { TrillionDigits(n); }
  }

  /** Outside, they do not: basic group 100 prints as "-100", which is no channel. */
  lemma GroupHundred()
    ensures Print(Peer(Group, 100)) == "-100" && ResolvePeer("-100", _ => None) == Err(InvalidChannel)
    ensures FromDialogID(-100) == Peer(Group, 100)
  {
    SmallHundred(100);
    PrefixParse(100);
    ParseFormat(-100, TWO_63);
    assert Pow10(0) == 1;
  }

  /** What is no chat id: nothing, a user name, zero, and what is no 64-bit number. */
  lemma NotAChat(s: string, store: int -> Option<Kind>)
    ensures ParseChatID("") == Err(Empty) && ParseChatID("@" + s) == Err(Username)
    ensures s != "" && s[0] != '@' && ParseInt(s, TWO_63).None? ==>
              ParseChatID(s) == Err(NotFound) && ResolvePeer(s, store) == Err(NotAnInteger)
    ensures ParseChatID("0") == Err(NotFound) && ResolvePeer("0", store) == Err(NotFound)
  {
    ParseFormat(0, TWO_63);
    assert FormatInt(0) == "0";
  }
}
