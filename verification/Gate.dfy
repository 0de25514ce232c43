// Which wire accounts become stored accounts: the checks on streamed updates and on RPC entries.
module Gate {
  import opened Types
  import opened Writes
  import opened Keys

  type Table = seq<Key>

  // The library codecs the service relies on: base58 text, the lookup-table decoder, and the
  // program address that owns every table.
  datatype Codec = Codec(
    encode58: Bytes -> string,
    decode58: string -> Option<Bytes>,
    decodeTable: Bytes -> Option<Table>,
    programId: Bytes)

  // Base58 decodes what it encodes, and its alphabet has no colon.
  ghost predicate Lawful(c: Codec) {
    && |c.programId| == 32
    && forall b :: c.decode58(c.encode58(b)) == Some(b) && ':' !in c.encode58(b)
  }

  datatype WireAccount = WireAccount(
    pubkey: Bytes, lamports: U64, owner: Bytes, executable: bool, rentEpoch: U64, data: Bytes, writeVersion: U64)
  datatype WireUpdate = WireUpdate(slot: Slot, account: Option<WireAccount>)

  // An RPC entry; its data is absent when its encoding cannot be undone.
  datatype UiAccount = UiAccount(
    pubkey: string, lamports: U64, owner: string, executable: bool, rentEpoch: U64, data: Option<Bytes>)

  datatype UpdateError = BodyMissing | InvalidKey | InvalidOwner

  function ParseKey(c: Codec, s: string): Option<Bytes> {
    match c.decode58(s)
    case Some(b) => if |b| == 32 then Some(b) else None
    case None => None
  }

  function FromYellowstone(c: Codec, a: Account): Option<Account> {
    if a.owner == c.programId && |a.pubkey| == 32 && c.decodeTable(a.data).Some? then Some(a) else None
  }

  function FromRpc(c: Codec, ui: UiAccount): Option<Account> {
    match (ui.data, ParseKey(c, ui.pubkey), ParseKey(c, ui.owner))
    case (Some(data), Some(pubkey), Some(owner)) =>
      FromYellowstone(c, Account(pubkey, ui.lamports, owner, ui.executable, ui.rentEpoch, data))
    case _ => None
  }

  function ToUi(c: Codec, a: Account): UiAccount {
    UiAccount(c.encode58(a.pubkey), a.lamports, c.encode58(a.owner), a.executable, a.rentEpoch, Some(a.data))
  }

  // A drained account, one of another owner, or one whose data is no table is a tombstone; a
  // missing body or a key or owner of the wrong length fails the source.
  function DecodeUpdate(c: Codec, u: WireUpdate): Result<Write, UpdateError> {
    match u.account
    case None => Err(BodyMissing)
    case Some(a) =>
      match KeyOf(a.pubkey)
      case None => Err(InvalidKey)
      case Some(key) =>
        if |a.owner| != 32 then Err(InvalidOwner)
        else
          var value := if a.lamports == 0 || a.owner != c.programId then None
                       else
                         FromYellowstone(
                           c, Account(a.pubkey, a.lamports, a.owner, a.executable, a.rentEpoch, a.data));
          Ok(Write(key, u.slot, a.writeVersion, value))
  }

  // What holds of every account the service stores under k.
  ghost predicate WellFormed(c: Codec, k: Key, a: Account) {
    && KeyOf(a.pubkey) == Some(k)
    && a.owner == c.programId
    && a.lamports != 0
    && c.decodeTable(a.data).Some?
  }

  ghost predicate AllWellFormed(c: Codec, m: Accounts) {
    forall k :: k in m ==> WellFormed(c, k, m[k])
  }

  lemma DecodedIsWellFormed(c: Codec, u: WireUpdate)
    requires DecodeUpdate(c, u).Ok?
    ensures var w := DecodeUpdate(c, u).value;
            w.slot == u.slot && (w.account.Some? ==> WellFormed(c, w.key, w.account.value))
  {
  }

  // A funded account of the program with decodable data.
  predicate IsTable(c: Codec, a: WireAccount) {
    a.lamports != 0 && a.owner == c.programId && c.decodeTable(a.data).Some?
  }

  // Exactly which updates decode, to what, and why the others do not.
  lemma DecodesExactly(c: Codec, u: WireUpdate)
    ensures DecodeUpdate(c, u).Ok?
            <==> u.account.Some? && |u.account.value.pubkey| == 32 && |u.account.value.owner| == 32
    ensures DecodeUpdate(c, u).Ok? ==>
              var w, a := DecodeUpdate(c, u).value, u.account.value;
              && BytesOf(w.key) == a.pubkey && w.slot == u.slot && w.version == a.writeVersion
              && w.account == if IsTable(c, a)
                              then Some(Account(a.pubkey, a.lamports, a.owner, a.executable, a.rentEpoch, a.data))
                              else None
    ensures DecodeUpdate(c, u) == Err(BodyMissing) <==> u.account.None?
    ensures DecodeUpdate(c, u) == Err(InvalidKey) <==> u.account.Some? && |u.account.value.pubkey| != 32
    ensures DecodeUpdate(c, u) == Err(InvalidOwner)
            <==> u.account.Some? && |u.account.value.pubkey| == 32 && |u.account.value.owner| != 32
  {
    if u.account.Some? && |u.account.value.pubkey| == 32 {
      BytesRoundTrip(u.account.value.pubkey);
    }
  }

  // Exactly which RPC entries become which accounts.
  lemma ConvertsExactly(c: Codec, ui: UiAccount, a: Account)
    ensures FromRpc(c, ui) == Some(a)
            <==> && ui.data == Some(a.data) && c.decodeTable(a.data).Some?
                 && c.decode58(ui.pubkey) == Some(a.pubkey) && |a.pubkey| == 32
                 && c.decode58(ui.owner) == Some(a.owner) && |a.owner| == 32 && a.owner == c.programId
                 && a.lamports == ui.lamports && a.executable == ui.executable && a.rentEpoch == ui.rentEpoch
  {
  }

  // A well-formed account survives the service's own RPC encoding.
  lemma UiRoundTrip(c: Codec, k: Key, a: Account)
    requires Lawful(c) && WellFormed(c, k, a)
    ensures FromRpc(c, ToUi(c, a)) == Some(a)
    ensures ParseKey(c, ToUi(c, a).pubkey) == Some(a.pubkey)
  {
    assert |a.pubkey| == 32;
  }
}
