/**
 The key of a persistent session on the list (ext/src/DefaultCluster.c): the key of its cluster, which
 ends in a field the application chooses freely (ext/src/Cluster/Builder.c), and the keyspace.
 */
module SessionKeys {
  import opened Options
  import opened Refs

  const Separator := ":session:"

  /** A missing keyspace counts as "". */
  function KeyspaceText(keyspace: Option<string>): string { if keyspace.Some? then keyspace.value else "" }

  function SessionKey(clusterKey: string, keyspace: Option<string>): PoolKey {
    PoolKey(clusterKey + (Separator + KeyspaceText(keyspace)))
  }

  /** Two texts are equal if the shorter beginning is cancelled on both sides. */
  lemma Cancel(c: string, x: string, c': string, y: string)
    requires |c| <= |c'|
    ensures c + x == c' + y <==> c <= c' && x == c'[|c|..] + y
  {
    assert (c + x)[|c|..] == x && (c + x)[..|c|] == c;
    assert (c' + y)[..|c|] == c'[..|c|] && (c' + y)[|c|..] == c'[|c|..] + y;
    if c <= c' {
      assert c' + y == c + (c'[|c|..] + y);
    }
  }

  /** On one cluster the key tells keyspaces apart, except a missing one from an empty one. */
  lemma KeyOfCluster(c: string, k: Option<string>, k': Option<string>)
    ensures SessionKey(c, k) == SessionKey(c, k') <==> KeyspaceText(k) == KeyspaceText(k')
  {
    var x, y := KeyspaceText(k), KeyspaceText(k');
    Cancel(c, Separator + x, c, Separator + y);
    assert c[|c|..] == "" && "" + (Separator + y) == Separator + y;
    Cancel(Separator, x, Separator, y);
    assert Separator[|Separator|..] == "" && "" + y == y;
  }

  /** The separator can begin inside `r` followed by the separator in two ways only. */
  lemma SeparatorWithin(r: string, t: string)
    requires r != "" && Separator <= r + (Separator + t)
    ensures r == ":session" || Separator <= r
  {
    var all := r + (Separator + t);
    assert forall i :: 0 <= i < 9 ==> all[i] == Separator[i];
    if |r| >= 9 {
      assert r[..9] == all[..9];
    } else {
      assert all[|r|] == Separator[0] == ':';
      assert Separator[|r|] == ':';
      assert |r| == 8;
      assert r == all[..8] == Separator[..8];
    }
  }

  /** Which clusters can share a list key with a cluster of a longer key and some keyspace: those whose
      key is a beginning of it, followed there by `:session` and nothing else, or by the separator. */
  lemma ClustersCollide(c: string, c': string, k': Option<string>)
    requires |c| < |c'|
    ensures (exists k: Option<string> :: SessionKey(c, k) == SessionKey(c', k')) <==>
              c <= c' && (c'[|c|..] == ":session" || Separator <= c'[|c|..])
  {
    var r, y := c'[|c|..], Separator + KeyspaceText(k');
    if k: Option<string> :| SessionKey(c, k) == SessionKey(c', k') {
      Cancel(c, Separator + KeyspaceText(k), c', y);
      SeparatorWithin(r, KeyspaceText(k'));
    }
    if c <= c' && (r == ":session" || Separator <= r) {
      Cancel(c, r + y, c', y);
      assert Separator <= r + y;
      var k := Some((r + y)[9..]);
      assert Separator + KeyspaceText(k) == r + y;
      assert SessionKey(c, k) == SessionKey(c', k');
    }
  }

  /** Different keys of the same length never collide. */
  lemma EqualLengthsDiffer(c: string, k: Option<string>, c': string, k': Option<string>)
    requires |c| == |c'| && c != c'
    ensures SessionKey(c, k) != SessionKey(c', k')
  {
    Cancel(c, Separator + KeyspaceText(k), c', Separator + KeyspaceText(k'));
  }

  /** Two clusters whose keys differ by a final `:session`, whatever comes before it. */
  lemma CollisionWitness(common: string)
    ensures SessionKey(common, Some("session:x")) == SessionKey(common + ":session", Some("x"))
  {
    assert ":session" + (Separator + "x") == Separator + "session:x";
    assert (common + ":session") + (Separator + "x") == common + (":session" + (Separator + "x"));
  }
}
