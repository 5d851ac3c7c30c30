/** The walk as the service runs it: nested dictionaries on the heap, a deep copy, and
    assignments in place. Each method is tied to the functions on values of Encryption. */
module FieldDicts {
  import opened Wrappers
  import opened JsonValues
  import Encryption

  /** An entry of a dictionary: another dictionary, or any other JSON value. */
  datatype Entry = Scalar(json: Json) | Child(dict: Dict)

  class Dict {
    var entries: map<string, Entry>
    ghost var repr: set<Dict>

    /** Dictionaries nest as a tree: no one is reached in two ways. */
    ghost predicate Valid()
      reads this, repr
      decreases repr
    {
      && this in repr
      && (forall k | k in entries ::
            match entries[k]
            case Scalar(json) => !json.Obj?
            case Child(d) => d in repr && d.repr <= repr && this !in d.repr && d.Valid())
      && (forall k, l | k in entries && l in entries && k != l && entries[k].Child? && entries[l].Child? ::
            entries[k].dict.repr !! entries[l].dict.repr)
    }

    /** The JSON object that the dictionary stands for. */
    ghost function Contents(): Fields
      requires Valid()
      reads this, repr
      decreases repr
    {
      map k | k in entries :: match entries[k] case Scalar(json) => json case Child(d) => Obj(d.Contents())
    }

    constructor ()
      ensures Valid() && repr == {this} && Contents() == map[]
    {
      entries := map[];
      repr := {this};
    }

    /** data[key] = a value that is not a dictionary. */
    method Put(key: string, json: Json)
      requires Valid() && !json.Obj?
      requires key in entries ==> entries[key].Scalar?
      modifies `entries
      ensures Valid() && Contents() == old(Contents())[key := json]
    {
      entries := entries[key := Scalar(json)];
      ChildrenStay();
    }

    /** data[key] = a dictionary of its own. */
    method Attach(key: string, child: Dict)
      requires Valid() && child.Valid() && child.repr !! repr && key !in entries
      modifies this
      ensures Valid() && repr == old(repr) + child.repr
      ensures Contents() == old(Contents())[key := Obj(child.Contents())]
    {
      entries := entries[key := Child(child)];
      repr := repr + child.repr;
      ChildrenStay();
      assert child.Valid() && child.Contents() == old(child.Contents());
    }

    /** What happens in this dictionary alone does not touch its children. */
    twostate lemma ChildrenStay()
      requires old(Valid()) && unchanged(old(repr) - {this})
      ensures forall key | key in old(entries) && old(entries[key]).Child? ::
                old(entries[key]).dict.Valid() && old(entries[key]).dict.repr == old(entries[key].dict.repr)
                && old(entries[key]).dict.Contents() == old(entries[key].dict.Contents())
    {
    }

    /** `_walk`, in place; false where the transform raises. */
    method Walk(path: string, transform: string -> Option<string>) returns (ok: bool)
      requires Valid()
      modifies repr`entries
      ensures Valid()
      ensures ok <==> Encryption.Walk(old(Contents()), path, transform).Some?
      ensures Contents() == Encryption.Walk(old(Contents()), path, transform).GetOr(old(Contents()))
      decreases |path|, 0
    {
      var (head, rest) := Encryption.Partition(path);
      if head !in entries {
        return true;
      }
      if rest == "" {
        ok := ChangeLeaf(head, transform);
      } else if entries[head].Child? {
        ok := WalkChild(head, rest, transform);
      } else {
        ok := true;
      }
    }

    /** The end of the path: a string is transformed, anything else is left. */
    method ChangeLeaf(key: string, transform: string -> Option<string>) returns (ok: bool)
      requires Valid() && key in entries
      modifies `entries
      ensures Valid()
      ensures ok <==> !(old(Contents())[key].Str? && transform(old(Contents())[key].s).None?)
      ensures Contents() == if ok && old(Contents())[key].Str?
                            then old(Contents())[key := Str(transform(old(Contents())[key].s).value)]
                            else old(Contents())
    {
      ok := true;
      if entries[key].Scalar? && entries[key].json.Str? {
        var changed := transform(entries[key].json.s);
        if changed.None? {
          return false;
        }
        Put(key, Str(changed.value));
      }
    }

    method WalkChild(key: string, rest: string, transform: string -> Option<string>) returns (ok: bool)
      requires Valid() && key in entries && entries[key].Child?
      modifies repr`entries
      ensures Valid()
      ensures ok <==> Encryption.Walk(old(Contents())[key].fields, rest, transform).Some?
      ensures var before := old(Contents())[key].fields;
              Contents() == old(Contents())[key := Obj(Encryption.Walk(before, rest, transform).GetOr(before))]
      decreases |rest|, 1
    {
      ok := entries[key].dict.Walk(rest, transform);
      ChildChanged(key);
    }

    /** When one child has changed below itself, the others are as they were. */
    twostate lemma OthersStay(head: string)
      requires old(Valid()) && head in old(entries) && old(entries[head]).Child?
      requires unchanged(this) && unchanged(repr`repr) && unchanged(repr - old(entries[head].dict.repr))
      ensures forall key | key in entries && key != head && entries[key].Child? ::
                entries[key].dict.Valid() && entries[key].dict.Contents() == old(entries[key].dict.Contents())
    {
    }

    twostate lemma ChildChanged(head: string)
      requires old(Valid()) && head in old(entries) && old(entries[head]).Child?
      requires unchanged(this) && unchanged(repr`repr) && unchanged(repr - old(entries[head].dict.repr))
      requires entries[head].dict.Valid()
      ensures Valid() && Contents() == old(Contents())[head := Obj(entries[head].dict.Contents())]
    {
      OthersStay(head);
    }
  }

  lemma OneMore(f: Fields, left: set<string>, key: string)
    requires key in left && key in f
    ensures (f - left)[key := f[key]] == f - (left - {key})
  {
  }

  lemma Ends(f: Fields)
    ensures f - f.Keys == map[] && f - {} == f
  {
  }

  /** A copy of the dictionary and of everything below it. */
  method DeepCopy(from: Dict) returns (copy: Dict)
    requires from.Valid()
    ensures copy.Valid() && fresh(copy.repr) && copy.Contents() == old(from.Contents())
    decreases from.repr, 1
  {
    ghost var contents := from.Contents();
    copy := new Dict();
    var left := from.entries.Keys;
    Ends(contents);
    while left != {}
      invariant left <= from.entries.Keys
      invariant copy.Valid() && fresh(copy.repr) && copy !in from.repr
      invariant from.Valid() && from.repr == old(from.repr) && from.Contents() == contents
      invariant copy.Contents() == contents - left
      decreases left
    {
      var key :| key in left;
      CopyEntry(from, key, copy);
      OneMore(contents, left, key);
      left := left - {key};
    }
  }

  method CopyEntry(from: Dict, key: string, copy: Dict)
    requires from.Valid() && key in from.entries
    requires copy.Valid() && copy !in from.repr && key !in copy.Contents()
    modifies copy
    ensures copy.Valid() && fresh(copy.repr - old(copy.repr))
    ensures from.Valid() && from.repr == old(from.repr) && from.Contents() == old(from.Contents())
    ensures copy.Contents() == old(copy.Contents()[key := from.Contents()[key]])
    decreases from.repr, 0
  {
    if from.entries[key].Scalar? {
      copy.Put(key, from.entries[key].json);
    } else {
      var inner := DeepCopy(from.entries[key].dict);
      copy.Attach(key, inner);
    }
  }

  /** encrypt_fields: the argument is left alone, and the copy shares nothing with it; it
      ends in an error when a string needs a key that is not there. */
  method EncryptFields(k: Encryption.Cipher, tenant: string, data: Dict, fields: seq<string>,
      nonces: seq<Encryption.Nonce>)
    returns (ok: bool, out: Dict)
    requires data.Valid() && |nonces| == |fields|
    ensures out.Valid() && fresh(out.repr)
    ensures var sealed := Encryption.EncryptFields(k, tenant, old(data.Contents()), fields, nonces);
            (ok <==> sealed.Some?) && (ok ==> out.Contents() == sealed.value)
  {
    ghost var all := Encryption.EncryptFields(k, tenant, data.Contents(), fields, nonces);
    out := DeepCopy(data);
    ok := true;
    var i := 0;
    while i < |fields| && ok
      invariant 0 <= i <= |fields|
      invariant out.Valid() && fresh(out.repr)
      invariant all == if ok then Encryption.EncryptFields(k, tenant, out.Contents(), fields[i..], nonces[i..])
          else None
      decreases |fields| - i
    {
      Encryption.EncryptNext(k, tenant, out.Contents(), fields, nonces, i);
      ok := out.Walk(fields[i], Encryption.Encrypting(k, tenant, nonces[i]));
      i := i + 1;
    }
  }

  /** decrypt_fields: the same loop, which ends in an error when a value does not open. */
  method DecryptFields(k: Encryption.Cipher, tenant: string, data: Dict, fields: seq<string>)
      returns (ok: bool, out: Dict)
    requires data.Valid()
    ensures out.Valid() && fresh(out.repr)
    ensures var plain := Encryption.DecryptFields(k, tenant, old(data.Contents()), fields);
            (ok <==> plain.Some?) && (ok ==> out.Contents() == plain.value)
  {
    ghost var all := Encryption.DecryptFields(k, tenant, data.Contents(), fields);
    out := DeepCopy(data);
    ok := true;
    var i := 0;
    while i < |fields| && ok
      invariant 0 <= i <= |fields|
      invariant out.Valid() && fresh(out.repr)
      invariant all == if ok then Encryption.DecryptFields(k, tenant, out.Contents(), fields[i..]) else None
      decreases |fields| - i
    {
      Encryption.DecryptNext(k, tenant, out.Contents(), fields, i);
      ok := out.Walk(fields[i], Encryption.Decrypting(k, tenant));
      i := i + 1;
    }
  }
}
