/** The whole chain: messages on the network, the managed map of a node, and the lines of its `authorized_keys`. */
module Deployment {
  import opened Text
  import opened Auth
  import opened SshKeys
  import opened AuthorizedKeys
  import opened ManagedBlockLaws
  import opened ManagedBlockPasses
  import opened Transport
  import opened Group

  /** The keys a node hands to the editor: the values of its managed map, in whatever order the hash map has. */
  ghost predicate ValuesOf(keys: seq<string>, managed: map<string, string>) {
    forall key :: key in keys <==> key in managed.Values
  }

  /** Removing repeats from normalised keys keeps exactly the same keys. */
  lemma DedupKeepsNormalized(keys: seq<string>)
    requires AllNormalized(keys)
    ensures Dedup(keys).Ok?
    ensures forall key :: key in Dedup(keys).value <==> key in keys
  {
    hide Normalize, Dedup, NoRepeats;
    DedupOkIff(keys);
    DedupSound(keys);
    var at := DedupOrder(keys);
    forall key | key in Dedup(keys).value
      ensures key in keys
    {
      var m :| 0 <= m < |Dedup(keys).value| && Dedup(keys).value[m] == key;
      assert FirstFrom(keys, key, at[m]);
      assert IsNormalized(keys[at[m]]);
    }
    forall key | key in keys
      ensures key in Dedup(keys).value
    {
      var i :| 0 <= i < |keys| && keys[i] == key;
      assert IsNormalized(keys[i]);
    }
  }

  lemma ManagedNormalized(
    crypto: Crypto, nodes: seq<Service>, leaked: set<string>, run: seq<Event>, i: nat, keys: seq<string>)
    requires KeysNormalized(nodes) && Trustworthy(crypto, nodes, leaked, run)
    requires i < |nodes| && nodes[i].sidToken !in leaked && ValuesOf(keys, Managed(crypto, nodes, run, i))
    ensures AllNormalized(keys)
    ensures forall key :: key in keys ==> FromGroup(nodes, nodes[i], key)
  {
    hide Normalize, Managed, Trustworthy;
    var managed := Managed(crypto, nodes, run, i);
    forall key | key in keys
      ensures FromGroup(nodes, nodes[i], key) && IsNormalized(key)
    {
      assert key in managed.Values;
      var id :| id in managed && managed[id] == key;
      GroupIsolation(crypto, nodes, leaked, run, i, id);
      var j :| 0 <= j < |nodes| && SameGroup(nodes[j], nodes[i]) && nodes[j].publicKey == key;
    }
  }

  /**
   After any run, whatever the network did, writing a node's managed keys to a file with ordered,
   closed markers succeeds; the block then lists each managed key once and nothing but public keys
   of nodes of the same SID and token, and the visible lines outside the block are what they were.
   */
  lemma WrittenKeysFromGroup(
    crypto: Crypto, nodes: seq<Service>, leaked: set<string>, run: seq<Event>, i: nat, keys: seq<string>,
    content: string)
    requires KeysNormalized(nodes) && Trustworthy(crypto, nodes, leaked, run)
    requires i < |nodes| && nodes[i].sidToken !in leaked && ValuesOf(keys, Managed(crypto, nodes, run, i))
    requires Ordered(Lines(content)) && !Unclosed(Lines(content))
    ensures Upsert(content, keys).Ok?
    ensures var after := Lines(Upsert(content, keys).value);
            HasBlock(after) && Ordered(after) && NoRepeats(ManagedKeys(after))
            && (forall key :: key in ManagedKeys(after) <==> key in Managed(crypto, nodes, run, i).Values)
            && (forall key :: key in ManagedKeys(after) ==> FromGroup(nodes, nodes[i], key))
            && Visible(Outside(after)) == Visible(Outside(Lines(content)))
  {
    hide *;
    ManagedNormalized(crypto, nodes, leaked, run, i, keys);
    DedupKeepsNormalized(keys);
    UpsertOk(content, keys);
    DedupSound(keys);
    UpdatePreserves(content, keys);
    SameValues(keys, Managed(crypto, nodes, run, i));
  }

  lemma SameValues(keys: seq<string>, managed: map<string, string>)
    requires ValuesOf(keys, managed)
    ensures forall key :: key in keys <==> key in managed.Values
  {
  }
}
