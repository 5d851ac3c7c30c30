/** Field encryption: a walk along dotted paths through nested dictionaries. */
module Encryption {
  import opened Wrappers
  import opened JsonValues

  const PREFIX := "ocrenc:v1:"

  type Nonce = n: string | |n| == 12 witness "............"

  /** The authenticated cipher and the base64 of its nonce and ciphertext, per tenant, and
      whether a master key is configured. Opening answers None where the service raises
      EncryptionError. */
  datatype Cipher = Cipher(hasKey: bool, seal: (string, Nonce, string) -> string,
      open: (string, string) -> Option<string>)

  ghost predicate Lawful(k: Cipher) {
    && (forall t: string, n: Nonce, p: string :: k.open(t, k.seal(t, n, p)) == Some(p))
    && (forall t: string, u: string, n: Nonce, p: string :: t != u ==> k.open(u, k.seal(t, n, p)) == None)
  }

  predicate IsEncrypted(s: string) {
    PREFIX <= s
  }

  /** None where the service raises: it needs the key only for a string that is no envelope. */
  function EncryptValue(k: Cipher, tenant: string, n: Nonce, plaintext: string): Option<string> {
    if IsEncrypted(plaintext) then Some(plaintext)
    else if !k.hasKey then None
    else Some(PREFIX + k.seal(tenant, n, plaintext))
  }

  function DecryptValue(k: Cipher, tenant: string, envelope: string): Option<string> {
    if !IsEncrypted(envelope) then Some(envelope)
    else if !k.hasKey then None
    else k.open(tenant, envelope[|PREFIX|..])
  }

  /** A value is an envelope exactly when it has the prefix, and is then left as it is. */
  lemma EnvelopesAreMarked(k: Cipher, tenant: string, n: Nonce, value: string)
    ensures IsEncrypted(value) <==> "ocrenc:v1:" <= value
    ensures "ocrenc:v1:" <= value ==> EncryptValue(k, tenant, n, value) == Some(value)
    ensures !("ocrenc:v1:" <= value) ==> DecryptValue(k, tenant, value) == Some(value)
  {
  }

  lemma ValueRoundTrip(k: Cipher, tenant: string, n: Nonce, plaintext: string)
    requires Lawful(k) && k.hasKey && !IsEncrypted(plaintext)
    ensures var e := EncryptValue(k, tenant, n, plaintext);
            && e.Some? && "ocrenc:v1:" <= e.value
            && DecryptValue(k, tenant, e.value) == Some(plaintext)
            && forall u | u != tenant :: DecryptValue(k, u, e.value) == None
  {
    var e := EncryptValue(k, tenant, n, plaintext).value;
    assert e[|PREFIX|..] == k.seal(tenant, n, plaintext);
  }

  // ---- Paths ------------------------------------------------------------------------

  /** path.partition("."): what stands before the first dot, and after it. */
  function Partition(path: string): (r: (string, string))
    ensures r.1 == "" || |r.1| < |path|
  {
    if path == "" then ("", "")
    else if path[0] == '.' then ("", path[1..])
    else
      var (head, rest) := Partition(path[1..]);
      ([path[0]] + head, rest)
  }

  /** The keys a path names; one trailing dot is ignored. */
  function Keys(path: string): (keys: seq<string>)
    ensures keys != []
    decreases |path|
  {
    var (head, rest) := Partition(path);
    if rest == "" then [head] else [head] + Keys(rest)
  }

  predicate Dotless(keys: seq<string>) {
    forall key | key in keys :: '.' !in key
  }

  /** Keys with dots between them, as the fields of a schema name them. */
  function Join(keys: seq<string>): string {
    if keys == [] then "" else if |keys| == 1 then keys[0] else keys[0] + "." + Join(keys[1..])
  }

  /** A path is cut at its first dot. */
  lemma {:induction false} PartitionAtFirstDot(head: string, rest: string)
    requires '.' !in head
    ensures Partition(head) == (head, "")
    ensures Partition(head + "." + rest) == (head, rest)
  {
    if head == "" {
      assert head + "." + rest == "." + rest && ("." + rest)[1..] == rest;
    } else {
      PartitionAtFirstDot(head[1..], rest);
      assert (head + "." + rest)[1..] == head[1..] + "." + rest;
      assert head == [head[0]] + head[1..];
    }
  }

  /** Keys joined by dots come back as they were, unless the last of several is empty. */
  lemma {:induction false} KeysOfJoined(keys: seq<string>)
    requires keys != [] && Dotless(keys) && (|keys| == 1 || keys[|keys| - 1] != "")
    ensures Keys(Join(keys)) == keys
  {
    assert keys[0] in keys;
    if |keys| == 1 {
      PartitionAtFirstDot(keys[0], "");
    } else {
      var rest := keys[1..];
      PartitionAtFirstDot(keys[0], Join(rest));
      assert rest[|rest| - 1] == keys[|keys| - 1];
      KeysOfJoined(rest);
      assert keys == [keys[0]] + rest;
    }
  }

  /** With one more dot at the end they come back in any case. */
  lemma {:induction false} KeysOfDotted(keys: seq<string>)
    requires keys != [] && Dotless(keys)
    ensures Keys(Join(keys) + ".") == keys
  {
    assert keys[0] in keys;
    if |keys| == 1 {
      PartitionAtFirstDot(keys[0], "");
      assert Join(keys) + "." == keys[0] + "." + "";
    } else {
      var rest := keys[1..];
      PartitionAtFirstDot(keys[0], Join(rest) + ".");
      assert Join(keys) + "." == keys[0] + "." + (Join(rest) + ".");
      KeysOfDotted(rest);
      assert keys == [keys[0]] + rest;
    }
  }

  /** `_walk`: the transform applied to the string at the end of the path, if there is
      one. The transform raises by answering None. */
  function Walk(data: Fields, path: string, transform: string -> Option<string>): Option<Fields>
    decreases |path|
  {
    var (head, rest) := Partition(path);
    if head !in data then Some(data)
    else if rest != "" then
      match data[head]
      case Obj(child) =>
        var child' :- Walk(child, rest, transform);
        Some(data[head := Obj(child')])
      case _ => Some(data)
    else
      match data[head]
      case Str(value) =>
        var value' :- transform(value);
        Some(data[head := Str(value')])
      case _ => Some(data)
  }

  function Encrypting(k: Cipher, tenant: string, n: Nonce): string -> Option<string> {
    v => EncryptValue(k, tenant, n, v)
  }

  function Decrypting(k: Cipher, tenant: string): string -> Option<string> {
    v => DecryptValue(k, tenant, v)
  }

  /** Each path draws a nonce of its own. */
  function EncryptFields(k: Cipher, tenant: string, data: Fields, paths: seq<string>,
      nonces: seq<Nonce>): Option<Fields>
    requires |nonces| == |paths|
  {
    if paths == [] then Some(data)
    else
      var out :- Walk(data, paths[0], Encrypting(k, tenant, nonces[0]));
      EncryptFields(k, tenant, out, paths[1..], nonces[1..])
  }

  function DecryptFields(k: Cipher, tenant: string, data: Fields, paths: seq<string>): Option<Fields> {
    if paths == [] then Some(data)
    else
      var out :- Walk(data, paths[0], Decrypting(k, tenant));
      DecryptFields(k, tenant, out, paths[1..])
  }

  // ---- What is where in a nested dictionary ---------------------------------------------

  datatype Node = Absent | Leaf(value: Json) | Branch(keys: set<string>)

  function NodeOf(j: Json): Node {
    if j.Obj? then Branch(j.fields.Keys) else Leaf(j)
  }

  /** What a sequence of keys leads to. */
  function See(j: Json, keys: seq<string>): Node {
    if keys == [] then NodeOf(j)
    else if j.Obj? && keys[0] in j.fields then See(j.fields[keys[0]], keys[1..])
    else Absent
  }

  predicate StringAt(data: Fields, keys: seq<string>) {
    var n := See(Obj(data), keys);
    n.Leaf? && n.value.Str?
  }

  function StringOf(data: Fields, keys: seq<string>): string
    requires StringAt(data, keys)
  {
    See(Obj(data), keys).value.s
  }

  predicate Addressed(paths: seq<string>, keys: seq<string>) {
    exists p :: p in paths && Keys(p) == keys
  }

  /** Two values that look the same everywhere are the same. */
  lemma {:induction false} SameEverywhere(a: Json, b: Json)
    requires forall keys :: See(a, keys) == See(b, keys)
    ensures a == b
    decreases a
  {
    assert See(a, []) == See(b, []);
    if a.Obj? {
      forall h | h in a.fields ensures a.fields[h] == b.fields[h] {
        forall keys ensures See(a.fields[h], keys) == See(b.fields[h], keys) {
          assert ([h] + keys)[1..] == keys;
          assert See(a, [h] + keys) == See(b, [h] + keys);
        }
        SameEverywhere(a.fields[h], b.fields[h]);
      }
    }
  }

  /** A walk transforms the string its path leads to and changes nothing else; it raises
      exactly when there is such a string and the transform raises on it. */
  lemma {:induction false} WalkSees(data: Fields, path: string, transform: string -> Option<string>)
    ensures var out := Walk(data, path, transform);
            && (out.None? <==> StringAt(data, Keys(path)) && transform(StringOf(data, Keys(path))).None?)
            && (out.Some? ==> forall keys ::
                  See(Obj(out.value), keys) ==
                  if keys == Keys(path) && StringAt(data, keys) then Leaf(Str(transform(StringOf(data, keys)).value))
                  else See(Obj(data), keys))
    decreases |path|
  {
    var (head, rest) := Partition(path);
    var ks := Keys(path);
    assert ks[0] == head;
    var out := Walk(data, path, transform);
    if head in data {
      if rest == "" {
        assert ks == [head] && ks[1..] == [];
        assert See(Obj(data), ks) == See(data[head], []);
        if data[head].Str? && transform(data[head].s).Some? {
          forall keys
            ensures See(Obj(out.value), keys) ==
                    if keys == ks && StringAt(data, keys) then Leaf(Str(transform(StringOf(data, keys)).value))
                    else See(Obj(data), keys)
          {
            ReplacedLeaf(data, head, Str(transform(data[head].s).value), keys);
          }
        }
      } else if data[head].Obj? {
        var child := data[head].fields;
        WalkSees(child, rest, transform);
        assert ks[1..] == Keys(rest);
        assert StringAt(data, ks) <==> StringAt(child, Keys(rest));
        forall keys | out.Some?
          ensures See(Obj(out.value), keys) ==
                  if keys == ks && StringAt(data, keys) then Leaf(Str(transform(StringOf(data, keys)).value))
                  else See(Obj(data), keys)
        {
          if keys == [] {
            assert out.value.Keys == data.Keys;
          } else if keys[0] == head {
            assert keys == [head] + keys[1..];
            assert ks == [head] + ks[1..];
            assert See(Obj(data), keys) == See(Obj(child), keys[1..]);
          }
        }
      } else {
        LeafHasNoKeys(data[head], ks[1..]);
      }
    }
  }

  lemma ReplacedLeaf(data: Fields, head: string, v: Json, keys: seq<string>)
    requires head in data && !data[head].Obj? && !v.Obj?
    ensures See(Obj(data[head := v]), keys) == if keys == [head] then Leaf(v) else See(Obj(data), keys)
  {
    if keys == [] {
      assert data[head := v].Keys == data.Keys;
    } else if keys[0] == head {
      assert keys == [head] + keys[1..];
      LeafHasNoKeys(v, keys[1..]);
      LeafHasNoKeys(data[head], keys[1..]);
    }
  }

  lemma LeafHasNoKeys(j: Json, keys: seq<string>)
    requires !j.Obj?
    ensures See(j, keys) == if keys == [] then Leaf(j) else Absent
  {
  }

  // ---- Encrypting a list of paths ------------------------------------------------------------

  /** A string as it was, or an envelope that opens to it. */
  ghost predicate Sealed(k: Cipher, tenant: string, plain: string, now: string) {
    if IsEncrypted(plain) then now == plain
    else IsEncrypted(now) && k.open(tenant, now[|PREFIX|..]) == Some(plain)
         && forall u | u != tenant :: k.open(u, now[|PREFIX|..]) == None
  }

  /** With its key, encrypt_fields turns every addressed string into an envelope that
      opens to it, leaves envelopes alone, and changes nothing else. */
  lemma {:induction false} EncryptSees(k: Cipher, tenant: string, data: Fields, paths: seq<string>, nonces: seq<Nonce>)
    requires Lawful(k) && k.hasKey && |nonces| == |paths|
    ensures var out := EncryptFields(k, tenant, data, paths, nonces);
            && out.Some?
            && forall keys ::
                 if Addressed(paths, keys) && StringAt(data, keys) then
                   StringAt(out.value, keys) && Sealed(k, tenant, StringOf(data, keys), StringOf(out.value, keys))
                 else See(Obj(out.value), keys) == See(Obj(data), keys)
    decreases |paths|
  {
    if paths != [] {
      var f := Encrypting(k, tenant, nonces[0]);
      WalkSees(data, paths[0], f);
      var mid := Walk(data, paths[0], f).value;
      EncryptSees(k, tenant, mid, paths[1..], nonces[1..]);
      var out := EncryptFields(k, tenant, data, paths, nonces).value;
      forall keys
        ensures if Addressed(paths, keys) && StringAt(data, keys) then
                  StringAt(out, keys) && Sealed(k, tenant, StringOf(data, keys), StringOf(out, keys))
                else See(Obj(out), keys) == See(Obj(data), keys)
      {
        assert Addressed(paths, keys) <==> Keys(paths[0]) == keys || Addressed(paths[1..], keys);
        if Keys(paths[0]) == keys && StringAt(data, keys) && !IsEncrypted(StringOf(data, keys)) {
          ValueRoundTrip(k, tenant, nonces[0], StringOf(data, keys));
          assert StringAt(mid, keys) && IsEncrypted(StringOf(mid, keys));
          assert StringOf(mid, keys)[|PREFIX|..] == k.seal(tenant, nonces[0], StringOf(data, keys));
        }
      }
    }
  }

  /** The names of fields, each given by its keys and written with dots. */
  function Names(fields: seq<seq<string>>): seq<string> {
    seq(|fields|, i requires 0 <= i < |fields| => Join(fields[i]))
  }

  /** So for fields given by their keys: with its key, encrypt_fields seals exactly the strings
      that one of the fields leads to, key by key, and changes nothing else. */
  lemma EncryptSeals(k: Cipher, tenant: string, data: Fields, fields: seq<seq<string>>, nonces: seq<Nonce>)
    requires Lawful(k) && k.hasKey && |nonces| == |fields|
    requires forall keys | keys in fields ::
               keys != [] && Dotless(keys) && (|keys| == 1 || keys[|keys| - 1] != "")
    ensures var out := EncryptFields(k, tenant, data, Names(fields), nonces);
            && out.Some?
            && forall keys ::
                 if keys in fields && StringAt(data, keys) then
                   StringAt(out.value, keys) && Sealed(k, tenant, StringOf(data, keys), StringOf(out.value, keys))
                 else See(Obj(out.value), keys) == See(Obj(data), keys)
  {
    var paths := Names(fields);
    EncryptSees(k, tenant, data, paths, nonces);
    forall keys ensures Addressed(paths, keys) <==> keys in fields {
      if keys in fields {
        var i :| 0 <= i < |fields| && fields[i] == keys;
        KeysOfJoined(keys);
        assert paths[i] in paths && Keys(paths[i]) == keys;
      }
      if Addressed(paths, keys) {
        var i :| 0 <= i < |paths| && Keys(paths[i]) == keys;
        assert fields[i] in fields;
        KeysOfJoined(fields[i]);
      }
    }
  }

  predicate PlainAt(data: Fields, keys: seq<string>) {
    StringAt(data, keys) && !IsEncrypted(StringOf(data, keys))
  }

  /** Without a key it raises exactly when an addressed string is no envelope, and
      otherwise changes nothing. */
  lemma {:induction false} KeylessEncrypt(k: Cipher, tenant: string, data: Fields, paths: seq<string>,
      nonces: seq<Nonce>)
    requires !k.hasKey && |nonces| == |paths|
    ensures EncryptFields(k, tenant, data, paths, nonces)
            == if exists keys :: Addressed(paths, keys) && PlainAt(data, keys) then None else Some(data)
    decreases |paths|
  {
    if paths != [] {
      var f := Encrypting(k, tenant, nonces[0]);
      WalkSees(data, paths[0], f);
      assert paths[0] in paths && Addressed(paths, Keys(paths[0]));
      assert forall keys :: Addressed(paths, keys) <==> Keys(paths[0]) == keys || Addressed(paths[1..], keys);
      var mid := Walk(data, paths[0], f);
      if mid.Some? {
        SameEverywhere(Obj(mid.value), Obj(data));
        KeylessEncrypt(k, tenant, data, paths[1..], nonces[1..]);
      }
    }
  }

  /** encrypt_fields raises exactly when there is no key and some addressed string needs it. */
  lemma EncryptRaisesExactlyWhen(k: Cipher, tenant: string, data: Fields, paths: seq<string>, nonces: seq<Nonce>)
    requires Lawful(k) && |nonces| == |paths|
    ensures EncryptFields(k, tenant, data, paths, nonces).None?
            <==> !k.hasKey && exists keys :: Addressed(paths, keys) && PlainAt(data, keys)
  {
    if k.hasKey {
      EncryptSees(k, tenant, data, paths, nonces);
    } else {
      KeylessEncrypt(k, tenant, data, paths, nonces);
    }
  }

  /** Encrypting again, with whatever nonces, changes nothing. */
  lemma {:induction false} EncryptTwiceIsOnce(k: Cipher, tenant: string, data: Fields, paths: seq<string>,
                                             nonces: seq<Nonce>, again: seq<Nonce>)
    requires Lawful(k) && |nonces| == |again| == |paths|
    ensures var once := EncryptFields(k, tenant, data, paths, nonces);
            once.Some? ==> EncryptFields(k, tenant, once.value, paths, again) == once
  {
    if k.hasKey {
      EncryptSees(k, tenant, data, paths, nonces);
      var once := EncryptFields(k, tenant, data, paths, nonces).value;
      EncryptSees(k, tenant, once, paths, again);
      var twice := EncryptFields(k, tenant, once, paths, again).value;
      forall keys ensures See(Obj(twice), keys) == See(Obj(once), keys) {
      }
      SameEverywhere(Obj(twice), Obj(once));
    } else {
      KeylessEncrypt(k, tenant, data, paths, nonces);
      KeylessEncrypt(k, tenant, data, paths, again);
    }
  }

  // ---- Decrypting -------------------------------------------------------------------------------

  /** The plain text behind a string: the string itself unless it is an envelope. */
  function Plain(k: Cipher, tenant: string, now: string): string {
    DecryptValue(k, tenant, now).GetOr("")
  }

  predicate OpensToPlain(k: Cipher, tenant: string, now: string) {
    var p := DecryptValue(k, tenant, now);
    p.Some? && !IsEncrypted(p.value)
  }

  lemma {:induction false} DecryptSees(k: Cipher, tenant: string, data: Fields, paths: seq<string>)
    requires forall keys | Addressed(paths, keys) && StringAt(data, keys) ::
               OpensToPlain(k, tenant, StringOf(data, keys))
    ensures var out := DecryptFields(k, tenant, data, paths);
            && out.Some?
            && forall keys ::
                 See(Obj(out.value), keys) ==
                 if Addressed(paths, keys) && StringAt(data, keys) then
                   Leaf(Str(Plain(k, tenant, StringOf(data, keys))))
                 else See(Obj(data), keys)
    decreases |paths|
  {
    if paths != [] {
      var f := Decrypting(k, tenant);
      assert paths[0] in paths && Addressed(paths, Keys(paths[0]));
      WalkSees(data, paths[0], f);
      var mid := Walk(data, paths[0], f).value;
      assert forall keys :: Addressed(paths, keys) <==> Keys(paths[0]) == keys || Addressed(paths[1..], keys);
      forall keys | Addressed(paths[1..], keys) && StringAt(mid, keys)
        ensures OpensToPlain(k, tenant, StringOf(mid, keys))
      {
        assert StringAt(data, keys) && OpensToPlain(k, tenant, StringOf(data, keys));
      }
      DecryptSees(k, tenant, mid, paths[1..]);
    }
  }

  /** decrypt_fields undoes encrypt_fields on the same paths, whatever the paths and nonces,
      when no addressed string carried the envelope prefix to begin with. */
  lemma FieldsRoundTrip(k: Cipher, tenant: string, data: Fields, paths: seq<string>, nonces: seq<Nonce>)
    requires Lawful(k) && |nonces| == |paths|
    requires forall keys | Addressed(paths, keys) && StringAt(data, keys) :: !IsEncrypted(StringOf(data, keys))
    ensures var out := EncryptFields(k, tenant, data, paths, nonces);
            out.Some? ==> DecryptFields(k, tenant, out.value, paths) == Some(data)
  {
    if k.hasKey {
      EncryptSees(k, tenant, data, paths, nonces);
    } else {
      KeylessEncrypt(k, tenant, data, paths, nonces);
    }
    if EncryptFields(k, tenant, data, paths, nonces).Some? {
      var out := EncryptFields(k, tenant, data, paths, nonces).value;
      forall keys | Addressed(paths, keys) && StringAt(out, keys)
        ensures OpensToPlain(k, tenant, StringOf(out, keys))
      {
        assert StringAt(data, keys);
        assert k.hasKey by {
          assert k.hasKey || PlainAt(data, keys);
        }
      }
      DecryptSees(k, tenant, out, paths);
      var back := DecryptFields(k, tenant, out, paths).value;
      forall keys ensures See(Obj(back), keys) == See(Obj(data), keys) {
      }
      SameEverywhere(Obj(back), Obj(data));
    }
  }

  /** An envelope at an addressed place that does not open makes the whole call raise. */
  lemma {:induction false} DecryptRaises(k: Cipher, tenant: string, data: Fields, paths: seq<string>, keys: seq<string>)
    requires Addressed(paths, keys) && StringAt(data, keys) && DecryptValue(k, tenant, StringOf(data, keys)) == None
    ensures DecryptFields(k, tenant, data, paths) == None
    decreases |paths|
  {
    WalkSees(data, paths[0], Decrypting(k, tenant));
    var mid := Walk(data, paths[0], Decrypting(k, tenant));
    if mid.Some? {
      assert Keys(paths[0]) != keys;
      assert Addressed(paths[1..], keys);
      assert See(Obj(mid.value), keys) == See(Obj(data), keys);
      DecryptRaises(k, tenant, mid.value, paths[1..], keys);
    }
  }

  /** Another tenant's context raises as soon as one field was really encrypted. */
  lemma WrongTenantRaises(k: Cipher, tenant: string, other: string, data: Fields, paths: seq<string>,
                          nonces: seq<Nonce>, keys: seq<string>)
    requires Lawful(k) && |nonces| == |paths| && other != tenant
    requires Addressed(paths, keys) && PlainAt(data, keys)
    ensures var out := EncryptFields(k, tenant, data, paths, nonces);
            out.Some? ==> DecryptFields(k, other, out.value, paths) == None
  {
    if k.hasKey {
      EncryptSees(k, tenant, data, paths, nonces);
      var out := EncryptFields(k, tenant, data, paths, nonces).value;
      DecryptRaises(k, other, out, paths, keys);
    } else {
      KeylessEncrypt(k, tenant, data, paths, nonces);
    }
  }

  /** One round of the loop over the listed fields. */
  lemma EncryptNext(k: Cipher, tenant: string, data: Fields, paths: seq<string>, nonces: seq<Nonce>, i: nat)
    requires i < |paths| == |nonces|
    ensures var out := Walk(data, paths[i], Encrypting(k, tenant, nonces[i]));
            EncryptFields(k, tenant, data, paths[i..], nonces[i..]) ==
            if out.None? then None else EncryptFields(k, tenant, out.value, paths[i + 1..], nonces[i + 1..])
  {
    assert paths[i..][1..] == paths[i + 1..] && nonces[i..][1..] == nonces[i + 1..];
  }

  lemma DecryptNext(k: Cipher, tenant: string, data: Fields, paths: seq<string>, i: nat)
    requires i < |paths|
    ensures var out := Walk(data, paths[i], Decrypting(k, tenant));
            DecryptFields(k, tenant, data, paths[i..]) ==
            if out.None? then None else DecryptFields(k, tenant, out.value, paths[i + 1..])
  {
    assert paths[i..][1..] == paths[i + 1..];
  }

  // ---- A cipher that satisfies the law ----------------------------------------------------------------

  function Header(tenant: string): string {
    seq(|tenant|, i => 'x') + "." + tenant
  }

  const Toy := Cipher(
    true,
    (tenant, n, p) => Header(tenant) + n + p,
    (tenant, body) =>
      if Header(tenant) <= body && |body| >= |Header(tenant)| + 12 then Some(body[|Header(tenant)| + 12..]) else None)

  lemma HeadersAreDistinct(t: string, u: string, rest: string)
    requires Header(u) <= Header(t) + rest
    ensures t == u
  {
    var i := if |t| < |u| then |t| else |u|;
    assert Header(u)[i] == (Header(t) + rest)[i] == Header(t)[i];
    assert |t| == |u|;
    assert Header(t)[|t| + 1..] == t && Header(u)[|u| + 1..] == u;
    assert (Header(t) + rest)[..|Header(t)|] == Header(t);
  }

  lemma ToyIsLawful()
    ensures Lawful(Toy)
  {
    forall t: string, n: Nonce, p: string ensures Toy.open(t, Toy.seal(t, n, p)) == Some(p) {
      assert (Header(t) + n + p)[|Header(t)| + 12..] == p;
    }
    forall t: string, u: string, n: Nonce, p: string | t != u ensures Toy.open(u, Toy.seal(t, n, p)) == None {
      if Header(u) <= Header(t) + n + p {
        assert Header(t) + n + p == Header(t) + (n + p);
        HeadersAreDistinct(t, u, n + p);
      }
    }
  }
}
