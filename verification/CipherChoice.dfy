/** The server's choice of cipher suite among equal-preference groups. A group is a run of suites the server
    likes equally, marked by a flag on all but its last; within a group the client's order decides. The loop
    keeps the client's earliest suite of the group at hand and takes it when the group is closed, so that a
    group left open at the end of the list is never taken. */
module CipherChoice {
  import opened Common

  datatype Cipher = Cipher(id: nat, minVersion: nat, maxVersion: nat, mkey: bv32, auth: bv32)

  /** What the handshake has settled: the protocol version and the key exchange and authentication
      methods the server's configuration supports. */
  datatype Terms = Terms(version: nat, maskK: bv32, maskA: bv32)

  predicate Supported(t: Terms, c: Cipher) {
    c.minVersion <= t.version <= c.maxVersion && c.mkey & t.maskK != 0 && c.auth & t.maskA != 0
  }

  /** The cipher can be used and the other side's list has it. */
  predicate Usable(t: Terms, allow: seq<Cipher>, c: Cipher) {
    Supported(t, c) && c in allow
  }

  /** Where a list first has the cipher. */
  function IndexOf(list: seq<Cipher>, c: Cipher): (i: nat)
    requires c in list
    ensures i < |list| && list[i] == c && c !in list[..i]
  {
    if list[0] == c then 0 else 1 + IndexOf(list[1..], c)
  }

  /** Entry `i` and the next are equally preferred. Without flags every entry is a group of its own. */
  predicate Joined(flags: Option<seq<nat>>, i: nat) {
    flags.Some? && i < |flags.value| && flags.value[i] == 1
  }

  /** The entries from `i` to `j` belong to one group. */
  predicate OneGroup(flags: Option<seq<nat>>, i: nat, j: nat) {
    forall m: nat | i <= m < j :: Joined(flags, m)
  }

  predicate SameGroup(flags: Option<seq<nat>>, i: nat, j: nat) {
    OneGroup(flags, i, j) && OneGroup(flags, j, i)
  }

  /** `flags` holds a zero or a one for every entry. */
  predicate FlagsFor(prio: seq<Cipher>, flags: Option<seq<nat>>) {
    flags.Some? ==> |flags.value| == |prio| && forall i: nat | i < |prio| :: flags.value[i] <= 1
  }

  /** The number of entries in groups that the flags close. */
  function Closed(prio: seq<Cipher>, flags: Option<seq<nat>>): (n: nat)
    ensures n <= |prio|
    ensures forall i: nat | n <= i < |prio| :: Joined(flags, i)
    ensures n > 0 ==> !Joined(flags, n - 1)
    decreases |prio|
  {
    if prio == [] then 0
    else if Joined(flags, |prio| - 1) then Closed(prio[..|prio| - 1], flags)
    else |prio|
  }

  /** Entry `k` is the right choice: usable, in the first group that has a usable entry, and of that
      group's usable entries the earliest in the other side's list. */
  predicate BestAt(t: Terms, prio: seq<Cipher>, flags: Option<seq<nat>>, allow: seq<Cipher>, k: nat) {
    && k < |prio| && Usable(t, allow, prio[k])
    && (forall j: nat | j < k && Usable(t, allow, prio[j]) :: SameGroup(flags, j, k))
    && (forall j: nat | j < |prio| && Usable(t, allow, prio[j]) && SameGroup(flags, j, k) ::
          IndexOf(allow, prio[k]) <= IndexOf(allow, prio[j]))
  }

  /** ssl3_choose_cipher's loop. It finds nothing exactly when no entry of a closed group is usable,
      and otherwise the best entry: for lists whose last group is closed, whenever there is one. */
  method Choose(t: Terms, prio: seq<Cipher>, flags: Option<seq<nat>>, allow: seq<Cipher>)
    returns (r: Option<Cipher>)
    requires FlagsFor(prio, flags)
    ensures r.None? <==> forall i: nat | i < Closed(prio, flags) :: !Usable(t, allow, prio[i])
    ensures r.Some? ==> exists k: nat :: BestAt(t, prio, flags, allow, k) && r.value == prio[k]
  {
    hide Supported, SameGroup, BestAt, Closed;
    var groupMin: int := -1;
    ghost var start: nat, best: nat := 0, 0;
    for i := 0 to |prio|
      invariant start <= i && OneGroup(flags, start, i) && (start > 0 ==> !Joined(flags, start - 1))
      invariant forall j: nat | j < start :: !Usable(t, allow, prio[j])
      invariant flags.None? ==> groupMin == -1
      invariant groupMin == -1 ==> forall j: nat | j < i :: !Usable(t, allow, prio[j])
      invariant groupMin != -1 ==> start <= best < i && Usable(t, allow, prio[best])
                                   && groupMin == IndexOf(allow, prio[best])
      invariant forall j: nat | start <= j < i && Usable(t, allow, prio[j]) ::
                  groupMin != -1 && groupMin <= IndexOf(allow, prio[j])
    {
      var c := prio[i];
      if Supported(t, c) && c in allow {
        var cipherIndex := IndexOf(allow, c);
        if flags.Some? && flags.value[i] == 1 {
          if groupMin == -1 || groupMin > cipherIndex {
            groupMin := cipherIndex;
            best := i;
          }
        } else {
          ghost var k := i;
          if groupMin != -1 && groupMin < cipherIndex {
            cipherIndex := groupMin;
            k := best;
          }
          BestOfGroup(t, prio, flags, allow, start, i, k);
          return Some(allow[cipherIndex]);
        }
      }
      if flags.Some? && flags.value[i] == 0 && groupMin != -1 {
        BestOfGroup(t, prio, flags, allow, start, i, best);
        return Some(allow[groupMin]);
      }
      if !Joined(flags, i) {
        start := i + 1;
      }
    }
    ClosedStart(prio, flags, start);
    return None;
  }

  /** The group that starts at `start` ends with entry `i`. */
  lemma GroupBounds(prio: seq<Cipher>, flags: Option<seq<nat>>, start: nat, i: nat)
    requires start <= i < |prio| && OneGroup(flags, start, i) && (start > 0 ==> !Joined(flags, start - 1))
    requires !Joined(flags, i)
    ensures forall j: nat, k: nat | start <= k <= i && j < |prio| :: SameGroup(flags, j, k) <==> start <= j <= i
    ensures i < Closed(prio, flags)
  {
    forall j: nat, k: nat | start <= k <= i && j < |prio|
      ensures SameGroup(flags, j, k) <==> start <= j <= i
    {
      if j < start {
        assert j <= start - 1 < k;
      } else if j > i {
        assert k <= i < j;
      }
    }
  }

  /** The best entry of the first group with a usable entry is the right choice. */
  lemma BestOfGroup(t: Terms, prio: seq<Cipher>, flags: Option<seq<nat>>, allow: seq<Cipher>,
                    start: nat, i: nat, k: nat)
    requires start <= k <= i < |prio| && OneGroup(flags, start, i) && (start > 0 ==> !Joined(flags, start - 1))
    requires !Joined(flags, i) && Usable(t, allow, prio[k])
    requires forall j: nat | j < start :: !Usable(t, allow, prio[j])
    requires forall j: nat | start <= j <= i && Usable(t, allow, prio[j]) ::
               IndexOf(allow, prio[k]) <= IndexOf(allow, prio[j])
    ensures BestAt(t, prio, flags, allow, k) && k < Closed(prio, flags)
  {
    hide Supported, SameGroup, Closed;
    GroupBounds(prio, flags, start, i);
  }

  lemma ClosedStart(prio: seq<Cipher>, flags: Option<seq<nat>>, start: nat)
    requires start <= |prio| && OneGroup(flags, start, |prio|) && (start > 0 ==> !Joined(flags, start - 1))
    ensures Closed(prio, flags) == start
  {
    var n := Closed(prio, flags);
  }

  /** ssl3_choose_cipher: with server preference the server's list is searched and the client's list
      orders each group, otherwise the client's list is searched, every entry its own group. */
  method ChooseCipher(t: Terms, serverPreference: bool, server: seq<Cipher>, flags: seq<nat>, client: seq<Cipher>)
    returns (r: Option<Cipher>)
    requires FlagsFor(server, Some(flags)) && (flags != [] ==> flags[|flags| - 1] == 0)
    ensures r.None? <==> forall c :: c in server && c in client ==> !Supported(t, c)
    ensures serverPreference && r.Some? ==>
              exists k: nat :: BestAt(t, server, Some(flags), client, k) && r.value == server[k]
    ensures !serverPreference && r.Some? ==>
              exists k: nat :: FirstUsable(t, client, server, k) && r.value == client[k]
  {
    hide Supported;
    if serverPreference {
      r := Choose(t, server, Some(flags), client);
      AllClosed(server, Some(flags));
    } else {
      r := Choose(t, client, None, server);
      AllClosed(client, None);
      if r.Some? {
        ghost var k: nat :| BestAt(t, client, None, server, k) && r.value == client[k];
        SingletonGroups(t, client, server, k);
      }
    }
  }

  /** Entry `k` is the first usable one. */
  predicate FirstUsable(t: Terms, prio: seq<Cipher>, allow: seq<Cipher>, k: nat) {
    k < |prio| && Usable(t, allow, prio[k]) && forall j: nat | j < k :: !Usable(t, allow, prio[j])
  }

  /** Without flags the best entry is the first usable one. */
  lemma SingletonGroups(t: Terms, prio: seq<Cipher>, allow: seq<Cipher>, k: nat)
    requires BestAt(t, prio, None, allow, k)
    ensures FirstUsable(t, prio, allow, k)
  {
    hide Usable;
    forall j: nat | j < k ensures !Usable(t, allow, prio[j]) {
      assert !Joined(None, j);
    }
  }

  lemma AllClosed(prio: seq<Cipher>, flags: Option<seq<nat>>)
    requires prio == [] || !Joined(flags, |prio| - 1)
    ensures Closed(prio, flags) == |prio|
  {
  }

  /** A list that ends inside a group loses that group: its only cipher is usable and not chosen. */
  lemma OpenGroupIsLost(t: Terms, c: Cipher)
    requires Supported(t, c)
    ensures Usable(t, [c], c) && FlagsFor([c], Some([1])) && Closed([c], Some([1])) == 0
  {
    assert Joined(Some([1]), 0);
    assert [c][..0] == [];
  }
}
