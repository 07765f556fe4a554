// Secret fields of a connector's configuration: encrypted where they are stored, decrypted where
// they are revealed, and carried through incremental updates.
module ConnectorSecrets {
  import opened Common

  // The cipher and Python's str() as parameters. Encrypting the same text twice gives different
  // tokens, hence the nonce; decrypting a foreign token fails. A string is its own text, and the
  // text of anything else does not start with the mark of a stored secret.
  datatype Cipher = Cipher(enc: (nat, string) -> string, dec: string -> Option<string>, str: Json -> string)

  ghost predicate Faithful(c: Cipher) {
    && (forall n, p :: c.dec(c.enc(n, p)) == Some(p))
    && (forall s :: c.str(JString(s)) == s)
    && (forall j: Json :: !j.JString? ==> !HasPrefix(c.str(j)))
  }

  const PREFIX := "enc:v1:"

  predicate HasPrefix(s: string) {
    PREFIX <= s
  }

  function EncryptValue(c: Cipher, n: nat, plaintext: string): string {
    if HasPrefix(plaintext) then plaintext else PREFIX + c.enc(n, plaintext)
  }

  // A token that cannot be decrypted is returned as it is.
  function DecryptValue(c: Cipher, ciphertext: string): string {
    if !HasPrefix(ciphertext) then ciphertext
    else
      match c.dec(ciphertext[|PREFIX|..])
      case Some(plaintext) => plaintext
      case None => ciphertext
  }

  function EncryptOne(c: Cipher, n: nat, config: Item, name: string): Item {
    if name in config && config[name] != JNull then config[name := JString(EncryptValue(c, n, c.str(config[name])))]
    else config
  }

  function DecryptOne(c: Cipher, config: Item, name: string): Item {
    if name in config && config[name].JString? && HasPrefix(config[name].s)
    then config[name := JString(DecryptValue(c, config[name].s))] else config
  }

  function EncryptFields(c: Cipher, n: nat, config: Item, names: seq<string>): Item {
    if names == [] then config
    else EncryptOne(c, n + |names| - 1, EncryptFields(c, n, config, names[..|names| - 1]), names[|names| - 1])
  }

  function DecryptFields(c: Cipher, config: Item, names: seq<string>): Item {
    if names == [] then config
    else DecryptOne(c, DecryptFields(c, config, names[..|names| - 1]), names[|names| - 1])
  }

  method EncryptSecretFields(c: Cipher, n: nat, config: Item, names: seq<string>) returns (out: Item)
    ensures out == EncryptFields(c, n, config, names)
  {
    out := config;
    for i := 0 to |names|
      invariant out == EncryptFields(c, n, config, names[..i])
    {
      assert names[..i + 1][..i] == names[..i];
      var name := names[i];
      if name in out && out[name] != JNull {
        out := out[name := JString(EncryptValue(c, n + i, c.str(out[name])))];
      }
    }
    assert names[..|names|] == names;
  }

  method DecryptSecretFields(c: Cipher, config: Item, names: seq<string>) returns (out: Item)
    ensures out == DecryptFields(c, config, names)
  {
    out := config;
    for i := 0 to |names|
      invariant out == DecryptFields(c, config, names[..i])
    {
      assert names[..i + 1][..i] == names[..i];
      var name := names[i];
      if name in out && out[name].JString? && HasPrefix(out[name].s) {
        out := out[name := JString(DecryptValue(c, out[name].s))];
      }
    }
    assert names[..|names|] == names;
  }

  // ---------------------------------------------------------------- the connector

  datatype Conn = Conn(name: string, description: Option<string>, config: Item, secrets: seq<string>, status: string,
                       sampleLimit: int)

  // The fields a request sets; a config or secret list sent as null counts as empty.
  datatype Patch = Patch(
    name: Option<string>,
    description: Option<Option<string>>,
    config: Option<Item>,
    secrets: Option<seq<string>>,
    status: Option<string>,
    sampleLimit: Option<int>)

  function NewSecrets(conn: Conn, p: Patch): seq<string> {
    if p.secrets.Some? then p.secrets.value else conn.secrets
  }

  function Merged(conn: Conn, p: Patch): Item {
    conn.config + if p.config.Some? then p.config.value else map[]
  }

  function NewConfig(c: Cipher, n: nat, conn: Conn, p: Patch): Item {
    if p.config.None? && p.secrets.None? then conn.config
    else EncryptFields(c, n, DecryptFields(c, Merged(conn, p), NewSecrets(conn, p)), NewSecrets(conn, p))
  }

  function Update(c: Cipher, n: nat, conn: Conn, p: Patch): Conn {
    Conn(if p.name.Some? then p.name.value else conn.name,
         if p.description.Some? then p.description.value else conn.description,
         NewConfig(c, n, conn, p),
         NewSecrets(conn, p),
         if p.status.Some? then p.status.value else conn.status,
         if p.sampleLimit.Some? then p.sampleLimit.value else conn.sampleLimit)
  }

  function Created(c: Cipher, n: nat, name: string, description: Option<string>, config: Item, secrets: seq<string>,
                   sampleLimit: int): Conn {
    Conn(name, description, EncryptFields(c, n, config, secrets), secrets, "active", sampleLimit)
  }

  // What revealing the connector shows.
  function View(c: Cipher, conn: Conn): Item {
    DecryptFields(c, conn.config, conn.secrets)
  }

  class Connector {
    var name: string
    var description: Option<string>
    var config: Item
    var secrets: seq<string>
    var status: string
    var sampleLimit: int

    function State(): Conn
      reads this
    {
      Conn(name, description, config, secrets, status, sampleLimit)
    }

    constructor (name: string, description: Option<string>, config: Item, secrets: seq<string>, sampleLimit: int)
      ensures State() == Conn(name, description, config, secrets, "active", sampleLimit)
    {
      this.name, this.description, this.config := name, description, config;
      this.secrets, this.status, this.sampleLimit := secrets, "active", sampleLimit;
    }

    static method CreateConnector(c: Cipher, n: nat, name: string, description: Option<string>, config: Item,
                                  secrets: seq<string>, sampleLimit: int)
      returns (conn: Connector)
      ensures fresh(conn) && conn.State() == Created(c, n, name, description, config, secrets, sampleLimit)
      ensures conn.name == name && conn.description == description && conn.secrets == secrets
      ensures conn.status == "active" && conn.sampleLimit == sampleLimit
    {
      var encrypted := EncryptSecretFields(c, n, config, secrets);
      conn := new Connector(name, description, encrypted, secrets, sampleLimit);
    }

    method UpdateConnector(c: Cipher, n: nat, p: Patch)
      modifies this
      ensures State() == Update(c, n, old(State()), p)
    {
      var newConfig := p.config;
      if p.config.Some? {
        var newSecrets := if p.secrets.Some? then p.secrets.value else secrets;
        var merged := config + p.config.value;
        var decrypted := DecryptSecretFields(c, merged, newSecrets);
        var encrypted := EncryptSecretFields(c, n, decrypted, newSecrets);
        newConfig := Some(encrypted);
      } else if p.secrets.Some? {
        var decrypted := DecryptSecretFields(c, config, p.secrets.value);
        var encrypted := EncryptSecretFields(c, n, decrypted, p.secrets.value);
        newConfig := Some(encrypted);
        assert config + map[] == config;
      }
      if p.name.Some? {
        name := p.name.value;
      }
      if p.description.Some? {
        description := p.description.value;
      }
      if newConfig.Some? {
        config := newConfig.value;
      }
      if p.secrets.Some? {
        secrets := p.secrets.value;
      }
      if p.status.Some? {
        status := p.status.value;
      }
      if p.sampleLimit.Some? {
        sampleLimit := p.sampleLimit.value;
      }
    }
  }

  // ---------------------------------------------------------------- field by field

  predicate IsMarked(j: Json) {
    j.JString? && HasPrefix(j.s)
  }

  // One decryption of one value, and as many as the list names the field.
  function Reveal(c: Cipher, j: Json): Json {
    if IsMarked(j) then JString(DecryptValue(c, j.s)) else j
  }

  function RevealTimes(c: Cipher, j: Json, k: nat): Json {
    if k == 0 then j else Reveal(c, RevealTimes(c, j, k - 1))
  }

  function Text(c: Cipher, j: Json): Json {
    if j == JNull then JNull else JString(c.str(j))
  }

  // Is `after` the stored form of `before`? None stays, a marked text stays, the rest is a token
  // of the text.
  ghost predicate IsStoredForm(c: Cipher, before: Json, after: Json) {
    if before == JNull || IsMarked(before) then after == before
    else exists n :: after == JString(PREFIX + c.enc(n, c.str(before)))
  }

  lemma MarkedIsMarked(s: string)
    ensures HasPrefix(PREFIX + s) && (PREFIX + s)[|PREFIX|..] == s
  {
  }

  lemma {:induction false} EncryptAt(c: Cipher, n: nat, config: Item, names: seq<string>, key: string)
    requires Faithful(c)
    ensures EncryptFields(c, n, config, names).Keys == config.Keys
    ensures key in config ==>
      var after := EncryptFields(c, n, config, names)[key];
      if key in names then IsStoredForm(c, config[key], after) else after == config[key]
  {
    if names == [] {
    } else {
      var front, last := names[..|names| - 1], names[|names| - 1];
      EncryptAt(c, n, config, front, key);
      assert names == front + [last];
      if key in config && key == last && key in front && config[key] != JNull {
        var before := EncryptFields(c, n, config, front)[key];
        assert HasPrefix(before.s) && c.str(before) == before.s;
      }
    }
  }

  lemma {:induction false} DecryptAt(c: Cipher, config: Item, names: seq<string>, key: string)
    ensures DecryptFields(c, config, names).Keys == config.Keys
    ensures key in config ==>
      DecryptFields(c, config, names)[key] == RevealTimes(c, config[key], multiset(names)[key])
  {
    if names == [] {
    } else {
      var front, last := names[..|names| - 1], names[|names| - 1];
      DecryptAt(c, config, front, key);
      assert names == front + [last];
    }
  }

  // One decryption is all it takes: the value is not a token of a token.
  predicate Settled(c: Cipher, j: Json) {
    Reveal(c, Reveal(c, j)) == Reveal(c, j)
  }

  lemma {:induction false} SettledReveals(c: Cipher, j: Json, k: nat)
    requires Settled(c, j)
    ensures RevealTimes(c, j, k) == if k == 0 then j else Reveal(c, j)
  {
    if k == 0 {
    } else {
      SettledReveals(c, j, k - 1);
    }
  }

  // A stored form reads back as the text it was made from, once it is decrypted at all.
  lemma ReadBack(c: Cipher, before: Json, stored: Json, k: nat)
    requires Faithful(c) && IsStoredForm(c, before, stored) && k >= 1
    ensures RevealTimes(c, stored, k) == if IsMarked(before) then RevealTimes(c, before, k) else Text(c, before)
    ensures !IsMarked(before) ==> Settled(c, stored)
  {
    if before != JNull && !IsMarked(before) {
      var n :| stored == JString(PREFIX + c.enc(n, c.str(before)));
      MarkedIsMarked(c.enc(n, c.str(before)));
      assert Reveal(c, stored) == Text(c, before) && !IsMarked(Text(c, before));
    }
    if !IsMarked(before) {
      SettledReveals(c, stored, k);
    }
  }

  // What decrypting and encrypting again does to one field, for any value: what is stored is the
  // form of the revealed value, and what the next view shows is its text, unless that is itself
  // marked and so revealed once more.
  lemma ReencryptedAt(c: Cipher, n: nat, merged: Item, names: seq<string>, key: string)
    requires Faithful(c) && key in merged
    ensures
      var stored := EncryptFields(c, n, DecryptFields(c, merged, names), names);
      var k := multiset(names)[key];
      var revealed := RevealTimes(c, merged[key], k);
      && stored.Keys == merged.Keys && DecryptFields(c, stored, names).Keys == merged.Keys
      && (if key in names then IsStoredForm(c, revealed, stored[key]) else stored[key] == merged[key])
      && DecryptFields(c, stored, names)[key] ==
         if key !in names then merged[key]
         else if IsMarked(revealed) then RevealTimes(c, revealed, k) else Text(c, revealed)
  {
    var k, plain := multiset(names)[key], DecryptFields(c, merged, names);
    DecryptAt(c, merged, names, key);
    EncryptAt(c, n, plain, names, key);
    var stored := EncryptFields(c, n, plain, names);
    DecryptAt(c, stored, names, key);
    if key in names {
      ReadBack(c, plain[key], stored[key], k);
    }
  }

  // ---------------------------------------------------------------- always stored encrypted

  // Each non-null listed field is stored with the mark.
  ghost predicate StoredEncrypted(conn: Conn) {
    forall f :: f in conn.secrets && f in conn.config && conn.config[f] != JNull ==> IsMarked(conn.config[f])
  }

  lemma {:induction false} EncryptedAreMarked(c: Cipher, n: nat, config: Item, names: seq<string>)
    requires Faithful(c)
    ensures EncryptFields(c, n, config, names).Keys == config.Keys
    ensures forall f :: f in names && f in config && EncryptFields(c, n, config, names)[f] != JNull ==>
      IsMarked(EncryptFields(c, n, config, names)[f])
  {
    EncryptAt(c, n, config, names, "");
    forall f | f in names && f in config {
      EncryptAt(c, n, config, names, f);
    }
  }

  // Whatever the inputs were: any create and any update leaves the secrets marked.
  lemma CreateStoresEncrypted(c: Cipher, n: nat, name: string, description: Option<string>, config: Item,
                              secrets: seq<string>, limit: int)
    requires Faithful(c)
    ensures StoredEncrypted(Created(c, n, name, description, config, secrets, limit))
  {
    EncryptedAreMarked(c, n, config, secrets);
  }

  lemma UpdateStoresEncrypted(c: Cipher, n: nat, conn: Conn, p: Patch)
    requires Faithful(c) && StoredEncrypted(conn)
    ensures StoredEncrypted(Update(c, n, conn, p))
  {
    EncryptedAreMarked(c, n, DecryptFields(c, Merged(conn, p), NewSecrets(conn, p)), NewSecrets(conn, p));
  }

  // In every reachable state, whatever was sent: the listed secrets are stored marked.
  lemma {:induction false} RunStoresEncrypted(c: Cipher, conns: seq<Conn>, patches: seq<Patch>, nonces: seq<nat>,
                                              k: nat)
    requires Faithful(c) && |conns| == |patches| + 1 == |nonces| + 1 && k < |conns|
    requires exists n, config :: conns[0].config == EncryptFields(c, n, config, conns[0].secrets)
    requires forall i :: 0 <= i < |patches| ==> conns[i + 1] == Update(c, nonces[i], conns[i], patches[i])
    ensures StoredEncrypted(conns[k])
  {
    if k == 0 {
      var n, config :| conns[0].config == EncryptFields(c, n, config, conns[0].secrets);
      EncryptedAreMarked(c, n, config, conns[0].secrets);
    } else {
      RunStoresEncrypted(c, conns, patches, nonces, k - 1);
      UpdateStoresEncrypted(c, nonces[k - 1], conns[k - 1], patches[k - 1]);
    }
  }

  // ---------------------------------------------------------------- what an update means

  ghost predicate AllSettled(c: Cipher, config: Item) {
    forall f :: f in config ==> Settled(c, config[f])
  }

  ghost predicate Sound(c: Cipher, conn: Conn) {
    StoredEncrypted(conn) && AllSettled(c, conn.config)
  }

  ghost predicate SettledPatch(c: Cipher, p: Patch) {
    p.config.Some? ==> AllSettled(c, p.config.value)
  }

  predicate IsPatched(p: Patch, key: string) {
    p.config.Some? && key in p.config.value
  }

  // The view a caller expects: the old view overlaid with the patch, where a listed field shows
  // its text. A token sent in, or shown because its field was not listed, stands for its text.
  ghost function ExpectedAt(c: Cipher, conn: Conn, p: Patch, key: string): Json
    requires key in Merged(conn, p)
  {
    DecryptAt(c, conn.config, conn.secrets, key);
    var v := if IsPatched(p, key) then p.config.value[key] else View(c, conn)[key];
    if key in NewSecrets(conn, p) then Text(c, Reveal(c, v)) else v
  }

  ghost predicate ViewIsExpected(c: Cipher, n: nat, conn: Conn, p: Patch) {
    var after := View(c, Update(c, n, conn, p));
    && after.Keys == Merged(conn, p).Keys
    && forall key :: key in Merged(conn, p) ==> after[key] == ExpectedAt(c, conn, p, key)
  }

  // A name taken off the secret list while its stored value can be decrypted and is not replaced.
  predicate DropsAt(c: Cipher, conn: Conn, p: Patch, key: string) {
    && key in conn.secrets && key !in NewSecrets(conn, p) && !IsPatched(p, key)
    && key in conn.config && Reveal(c, conn.config[key]) != conn.config[key]
  }

  lemma ViewAt(c: Cipher, n: nat, conn: Conn, p: Patch, key: string)
    requires Faithful(c) && Sound(c, conn) && SettledPatch(c, p) && key in Merged(conn, p)
    ensures
      var after := Update(c, n, conn, p);
      && after.config.Keys == Merged(conn, p).Keys == View(c, after).Keys
      && Settled(c, after.config[key])
      && (View(c, after)[key] == ExpectedAt(c, conn, p, key) <==> !DropsAt(c, conn, p, key))
  {
    var names, merged := NewSecrets(conn, p), Merged(conn, p);
    var k := multiset(names)[key];
    var old' := conn.secrets;
    DecryptAt(c, conn.config, old', key);
    SettledReveals(c, merged[key], k);
    if key in conn.config {
      SettledReveals(c, conn.config[key], multiset(old')[key]);
    }
    if p.config.None? && p.secrets.None? {
      assert merged == conn.config;
    } else {
      ReencryptedAt(c, n, merged, names, key);
      if key in names {
        SettledReveals(c, Reveal(c, merged[key]), k);
        StoredIsSettled(c, Reveal(c, merged[key]), Update(c, n, conn, p).config[key]);
      }
    }
  }

  lemma StoredIsSettled(c: Cipher, before: Json, stored: Json)
    requires Faithful(c) && IsStoredForm(c, before, stored) && Reveal(c, before) == before
    ensures Settled(c, stored)
  {
    ReadBack(c, before, stored, 1);
  }

  // After an update the revealed view is the old one overlaid with the patch, if and only if the
  // update does not take a readable secret off the list; a dropped one stays ciphertext until it
  // is listed again.
  lemma UpdateMeansOverlayIff(c: Cipher, n: nat, conn: Conn, p: Patch)
    requires Faithful(c) && Sound(c, conn) && SettledPatch(c, p)
    ensures Sound(c, Update(c, n, conn, p))
    ensures ViewIsExpected(c, n, conn, p) <==> forall key :: !DropsAt(c, conn, p, key)
  {
    UpdateStoresEncrypted(c, n, conn, p);
    var after, merged := Update(c, n, conn, p), Merged(conn, p);
    DecryptAt(c, merged, NewSecrets(conn, p), "");
    EncryptAt(c, n, DecryptFields(c, merged, NewSecrets(conn, p)), NewSecrets(conn, p), "");
    DecryptAt(c, after.config, after.secrets, "");
    assert forall key :: DropsAt(c, conn, p, key) ==> key in merged;
    hide View, Update, ExpectedAt, DropsAt, Settled;
    forall key | key in merged
      ensures Settled(c, after.config[key])
      ensures View(c, after)[key] == ExpectedAt(c, conn, p, key) <==> !DropsAt(c, conn, p, key)
    {
      ViewAt(c, n, conn, p, key);
    }
  }

  // Along every run, whatever is listed, dropped, listed again or sent back as a token: each
  // update means the overlay exactly when it drops no readable secret.
  lemma {:induction false} RunMeansOverlay(c: Cipher, conns: seq<Conn>, patches: seq<Patch>, nonces: seq<nat>, k: nat)
    requires Faithful(c) && |conns| == |patches| + 1 == |nonces| + 1 && k < |conns|
    requires exists n, config ::
      AllSettled(c, config) && conns[0].config == EncryptFields(c, n, config, conns[0].secrets)
    requires forall i :: 0 <= i < |patches| ==>
      SettledPatch(c, patches[i]) && conns[i + 1] == Update(c, nonces[i], conns[i], patches[i])
    ensures Sound(c, conns[k])
    ensures k < |patches| ==>
      (ViewIsExpected(c, nonces[k], conns[k], patches[k]) <==> forall key :: !DropsAt(c, conns[k], patches[k], key))
  {
    if k == 0 {
      var n, config :| AllSettled(c, config) && conns[0].config == EncryptFields(c, n, config, conns[0].secrets);
      CreatedIsSound(c, n, config, conns[0]);
    } else {
      RunMeansOverlay(c, conns, patches, nonces, k - 1);
      UpdateMeansOverlayIff(c, nonces[k - 1], conns[k - 1], patches[k - 1]);
    }
    if k < |patches| {
      UpdateMeansOverlayIff(c, nonces[k], conns[k], patches[k]);
    }
  }

  lemma CreatedIsSound(c: Cipher, n: nat, config: Item, conn: Conn)
    requires Faithful(c) && AllSettled(c, config) && conn.config == EncryptFields(c, n, config, conn.secrets)
    ensures Sound(c, conn)
  {
    EncryptedAreMarked(c, n, config, conn.secrets);
    forall key | key in conn.config
      ensures Settled(c, conn.config[key])
    {
      EncryptAt(c, n, config, conn.secrets, key);
      if key in conn.secrets && !IsMarked(config[key]) {
        ReadBack(c, config[key], conn.config[key], 1);
      }
    }
  }

  // ---------------------------------------------------------------- at the edges

  // The premise that values are settled is exact for what is sent in: a listed field shows the text
  // of the value it was sent if and only if decrypting that value again changes nothing.
  lemma PatchedSecretShownIff(c: Cipher, n: nat, conn: Conn, p: Patch, key: string)
    requires Faithful(c) && IsPatched(p, key) && key in NewSecrets(conn, p)
    ensures
      var k := multiset(NewSecrets(conn, p))[key];
      var sent := RevealTimes(c, p.config.value[key], k);
      && key in View(c, Update(c, n, conn, p))
      && (View(c, Update(c, n, conn, p))[key] == Text(c, sent) <==> RevealTimes(c, sent, k) == sent)
  {
    var k := multiset(NewSecrets(conn, p))[key];
    ReencryptedAt(c, n, Merged(conn, p), NewSecrets(conn, p), key);
    var sent := RevealTimes(c, p.config.value[key], k);
    if !IsMarked(sent) {
      SettledReveals(c, sent, k);
    }
  }

  // Right after a create the view shows each field as it was given, listed values as text, if and
  // only if no listed value is itself a token that can be decrypted.
  lemma CreateRoundTrip(c: Cipher, n: nat, name: string, description: Option<string>, config: Item,
                        secrets: seq<string>, limit: int, key: string)
    requires Faithful(c) && key in config
    ensures
      var view := View(c, Created(c, n, name, description, config, secrets, limit));
      && view.Keys == config.Keys
      && (key !in secrets ==> view[key] == config[key])
      && (key in secrets ==>
            (view[key] == Text(c, config[key]) <==>
             RevealTimes(c, config[key], multiset(secrets)[key]) == config[key]))
  {
    EncryptAt(c, n, config, secrets, key);
    var stored := EncryptFields(c, n, config, secrets);
    DecryptAt(c, stored, secrets, key);
    if key in secrets {
      var k := multiset(secrets)[key];
      ReadBack(c, config[key], stored[key], k);
      if !IsMarked(config[key]) {
        SettledReveals(c, config[key], k);
      }
    }
  }

  // A secret taken off the list is shown as ciphertext, and as itself once it is listed again.
  lemma DropHidesUntilListed(c: Cipher, key: string, text: string) returns (conns: seq<Conn>)
    requires Faithful(c) && !HasPrefix(text)
    ensures |conns| == 3
    ensures conns[0] == Created(c, 0, "db", None, map[key := JString(text)], [key], 100)
    ensures conns[1] == Update(c, 1, conns[0], Patch(None, None, None, Some([]), None, None))
    ensures conns[2] == Update(c, 1, conns[1], Patch(None, None, None, Some([key]), None, None))
    ensures key in View(c, conns[0]) && View(c, conns[0])[key] == JString(text)
    ensures key in View(c, conns[1]) && View(c, conns[1])[key] == JString(PREFIX + c.enc(0, text))
    ensures key in View(c, conns[2]) && View(c, conns[2])[key] == JString(text)
  {
    var config := map[key := JString(text)];
    var first := Created(c, 0, "db", None, config, [key], 100);
    var second := Update(c, 1, first, Patch(None, None, None, Some([]), None, None));
    conns := [first, second, Update(c, 1, second, Patch(None, None, None, Some([key]), None, None))];
    assert [key][..0] == [];
    MarkedIsMarked(c.enc(0, text));
    var token := JString(PREFIX + c.enc(0, text));
    assert EncryptFields(c, 0, config, [key][..0]) == config;
    assert first.config == EncryptOne(c, 0, config, key) == map[key := token];
    assert second.config == map[key := token] by {
      assert map[key := token] + map[] == map[key := token];
    }
    CreateRoundTrip(c, 0, "db", None, config, [key], 100, key);
    assert multiset([key])[key] == 1;
    assert RevealTimes(c, JString(text), 1) == Reveal(c, RevealTimes(c, JString(text), 0));
    assert Merged(second, Patch(None, None, None, Some([key]), None, None)) == map[key := token];
    ReencryptedAt(c, 1, map[key := token], [key], key);
    assert RevealTimes(c, token, 1) == Reveal(c, RevealTimes(c, token, 0)) == JString(text);
  }

  // A stored secret that can no longer be decrypted survives every update that does not replace it,
  // listed or not, and is shown as it is.
  lemma UndecryptableStays(c: Cipher, n: nat, conn: Conn, p: Patch, key: string)
    requires Faithful(c) && key in conn.config && !IsPatched(p, key)
    requires IsMarked(conn.config[key]) && c.dec(conn.config[key].s[|PREFIX|..]) == None
    ensures
      var after := Update(c, n, conn, p);
      && key in after.config && after.config[key] == conn.config[key]
      && key in View(c, after) && View(c, after)[key] == conn.config[key]
  {
    var names, merged, v := NewSecrets(conn, p), Merged(conn, p), conn.config[key];
    SettledReveals(c, v, multiset(names)[key]);
    DecryptAt(c, conn.config, names, key);
    if p.config.Some? || p.secrets.Some? {
      ReencryptedAt(c, n, merged, names, key);
    }
  }

  // ---------------------------------------------------------------- the other columns

  function SentNames(patches: seq<Patch>): seq<Option<string>> {
    seq(|patches|, i requires 0 <= i < |patches| => patches[i].name)
  }

  function SentDescriptions(patches: seq<Patch>): seq<Option<Option<string>>> {
    seq(|patches|, i requires 0 <= i < |patches| => patches[i].description)
  }

  function SentSecrets(patches: seq<Patch>): seq<Option<seq<string>>> {
    seq(|patches|, i requires 0 <= i < |patches| => patches[i].secrets)
  }

  function SentStatuses(patches: seq<Patch>): seq<Option<string>> {
    seq(|patches|, i requires 0 <= i < |patches| => patches[i].status)
  }

  function SentLimits(patches: seq<Patch>): seq<Option<int>> {
    seq(|patches|, i requires 0 <= i < |patches| => patches[i].sampleLimit)
  }

  ghost predicate ColumnsSent(conn: Conn, was: Conn, patches: seq<Patch>) {
    && conn.name == LastSent(SentNames(patches), was.name)
    && conn.description == LastSent(SentDescriptions(patches), was.description)
    && conn.secrets == LastSent(SentSecrets(patches), was.secrets)
    && conn.status == LastSent(SentStatuses(patches), was.status)
    && conn.sampleLimit == LastSent(SentLimits(patches), was.sampleLimit)
  }

  lemma NextSent(c: Cipher, n: nat, conn: Conn, was: Conn, patches: seq<Patch>, p: Patch)
    requires ColumnsSent(conn, was, patches)
    ensures ColumnsSent(Update(c, n, conn, p), was, patches + [p])
  {
    var all := patches + [p];
    assert SentNames(all)[..|patches|] == SentNames(patches) && SentSecrets(all)[..|patches|] == SentSecrets(patches);
    assert SentDescriptions(all)[..|patches|] == SentDescriptions(patches);
    assert SentStatuses(all)[..|patches|] == SentStatuses(patches);
    assert SentLimits(all)[..|patches|] == SentLimits(patches);
  }

  // Along every run each of them is the last value sent for it.
  lemma {:induction false} ColumnsTellHistory(c: Cipher, conns: seq<Conn>, patches: seq<Patch>, nonces: seq<nat>,
                                              k: nat)
    requires |conns| == |patches| + 1 == |nonces| + 1 && k < |conns|
    requires forall i :: 0 <= i < |patches| ==> conns[i + 1] == Update(c, nonces[i], conns[i], patches[i])
    ensures ColumnsSent(conns[k], conns[0], patches[..k])
  {
    if k == 0 {
      assert patches[..0] == [];
    } else {
      ColumnsTellHistory(c, conns, patches, nonces, k - 1);
      assert patches[..k] == patches[..k - 1] + [patches[k - 1]];
      hide ColumnsSent;
      NextSent(c, nonces[k - 1], conns[k - 1], conns[0], patches[..k - 1], patches[k - 1]);
    }
  }
}
