/** The server's choice of a cipher (handshake_server.cc, `ssl3_choose_cipher`)
    among equal-preference groups (internal.h). */
module TlsCipherChoice {
  import opened Wrappers

  type Cipher = nat

  /** `sk_SSL_CIPHER_find`: the first position of `c`. */
  function IndexOf(list: seq<Cipher>, c: Cipher): (i: Option<nat>)
    ensures i.Some? ==> i.value < |list| && list[i.value] == c && c !in list[..i.value]
    ensures i.None? <==> c !in list
  {
    if list == [] then None
    else if list[0] == c then Some(0)
    else
      match IndexOf(list[1..], c)
      case None => None
      case Some(i) =>
        assert list[..i + 1] == [list[0]] + list[1..][..i];
        Some(i + 1)
  }

  /** Usable for this connection and in the other side's list. */
  predicate Shared(c: Cipher, usable: set<Cipher>, allow: seq<Cipher>) {
    c in usable && c in allow
  }

  /** Positions `first` to `last` of the list are one group: every element but
      the last is marked as not the last of its group. Without flags every
      element is a group of its own. */
  predicate IsGroup(flags: Option<seq<bool>>, first: nat, last: nat) {
    if flags.None? then first == last
    else
      && first <= last < |flags.value|
      && (first == 0 || !flags.value[first - 1])
      && (forall i | first <= i < last :: flags.value[i]) && !flags.value[last]
  }

  predicate FlagsOk(flags: Option<seq<bool>>, prio: seq<Cipher>) {
    flags.Some? ==> |flags.value| == |prio| && (prio != [] ==> !flags.value[|prio| - 1])
  }

  /** `c` is the choice from the group `first` to `last`: a shared cipher of the
      group, and of those the one that comes first in `allow`. */
  ghost predicate BestOfGroup(c: Cipher, prio: seq<Cipher>, first: nat, last: nat, usable: set<Cipher>, allow: seq<Cipher>) {
    && first <= last < |prio|
    && c in prio[first..last + 1] && Shared(c, usable, allow)
    && forall i | first <= i <= last && Shared(prio[i], usable, allow) :: IndexOf(allow, c).value <= IndexOf(allow, prio[i]).value
  }

  ghost predicate NoneShared(prio: seq<Cipher>, first: nat, last: nat, usable: set<Cipher>, allow: seq<Cipher>)
    requires first <= last <= |prio|
  {
    forall i | first <= i < last :: !Shared(prio[i], usable, allow)
  }

  ghost predicate Chosen(c: Cipher, prio: seq<Cipher>, flags: Option<seq<bool>>, allow: seq<Cipher>, usable: set<Cipher>) {
    exists first: nat, last: nat ::
      && IsGroup(flags, first, last) && BestOfGroup(c, prio, first, last, usable, allow)
      && NoneShared(prio, 0, first, usable, allow)
  }

  /** The loop: from the first group that has a shared cipher, the one that is
      earliest in `allow`; nothing exactly if no cipher is shared. */
  method Choose(prio: seq<Cipher>, flags: Option<seq<bool>>, allow: seq<Cipher>, usable: set<Cipher>) returns (r: Option<Cipher>)
    requires FlagsOk(flags, prio)
    ensures r.Some? ==> Chosen(r.value, prio, flags, allow, usable)
    ensures r.None? <==> NoneShared(prio, 0, |prio|, usable, allow)
  {
    hide IndexOf, NoneShared, MinOfPart, Chosen, BestOfGroup, IsGroup;
    NoneYet(prio, usable, allow);
    // The smallest position in `allow` found so far in this group, or -1.
    var groupMin := -1;
    ghost var first := 0;
    for i := 0 to |prio|
      invariant first <= i && NoneShared(prio, 0, first, usable, allow)
      invariant flags.None? ==> first == i && groupMin == -1
      invariant flags.Some? ==> (first == 0 || !flags.value[first - 1]) && forall j | first <= j < i :: flags.value[j]
      invariant -1 <= groupMin && PartOk(groupMin, prio, first, i, usable, allow)
    {
      PartNext(groupMin, prio, first, i, usable, allow);
      var c := prio[i];
      if c in usable {
        var found := IndexOf(allow, c);
        if found.Some? {
          var index := found.value;
          if flags.Some? && flags.value[i] {
            if groupMin == -1 || groupMin > index {
              groupMin := index;
            }
          } else {
            if groupMin != -1 && groupMin < index {
              index := groupMin;
            }
            MinIsChosen(index, prio, flags, first, i, usable, allow);
            return Some(allow[index]);
          }
        }
      }
      if flags.Some? && !flags.value[i] && groupMin != -1 {
        MinIsChosen(groupMin, prio, flags, first, i, usable, allow);
        return Some(allow[groupMin]);
      }
      if flags.None? || !flags.value[i] {
        NoneUpto(prio, first, i + 1, usable, allow);
        first := i + 1;
      }
    }
    NoneUpto(prio, first, |prio|, usable, allow);
    return None;
  }

  /** `m` is the smallest position so far, or -1 if no cipher of the part is shared. */
  ghost predicate PartOk(m: int, prio: seq<Cipher>, first: nat, end: nat, usable: set<Cipher>, allow: seq<Cipher>) {
    && first <= end <= |prio|
    && if m == -1 then NoneShared(prio, first, end, usable, allow) else MinOfPart(m, prio, first, end, usable, allow)
  }

  lemma NoneYet(prio: seq<Cipher>, usable: set<Cipher>, allow: seq<Cipher>)
    ensures NoneShared(prio, 0, 0, usable, allow)
  {
  }

  /** One more cipher. */
  lemma PartNext(m: int, prio: seq<Cipher>, first: nat, i: nat, usable: set<Cipher>, allow: seq<Cipher>)
    requires -1 <= m && i < |prio| && PartOk(m, prio, first, i, usable, allow)
    ensures !Shared(prio[i], usable, allow) ==> PartOk(m, prio, first, i + 1, usable, allow)
    ensures Shared(prio[i], usable, allow) ==>
              var index := IndexOf(allow, prio[i]).value;
              MinOfPart(if m == -1 || m > index then index else m, prio, first, i + 1, usable, allow)
  {
    hide IndexOf;
  }

  /** With nothing shared before the part nor in it, the next group begins. */
  lemma NoneUpto(prio: seq<Cipher>, first: nat, end: nat, usable: set<Cipher>, allow: seq<Cipher>)
    requires first <= end <= |prio| && NoneShared(prio, 0, first, usable, allow)
    ensures NoneShared(prio, first, end, usable, allow) ==>
              NoneShared(prio, 0, end, usable, allow) && NoneShared(prio, end, end, usable, allow)
  {
  }

  lemma MinIsChosen(m: nat, prio: seq<Cipher>, flags: Option<seq<bool>>, first: nat, last: nat, usable: set<Cipher>, allow: seq<Cipher>)
    requires MinOfPart(m, prio, first, last + 1, usable, allow) && first <= last < |prio| && NoneShared(prio, 0, first, usable, allow)
    requires FlagsOk(flags, prio)
    requires flags.None? ==> first == last
    requires flags.Some? ==> (first == 0 || !flags.value[first - 1]) && !flags.value[last] && forall j | first <= j < last :: flags.value[j]
    ensures m < |allow| && Chosen(allow[m], prio, flags, allow, usable) && !NoneShared(prio, 0, |prio|, usable, allow)
  {
    hide BestOfGroup;
    MinIsBest(m, prio, first, last, usable, allow);
    assert IsGroup(flags, first, last);
  }

  /** `m` is the smallest position in `allow` of a shared cipher in the part. */
  ghost predicate MinOfPart(m: int, prio: seq<Cipher>, first: nat, end: nat, usable: set<Cipher>, allow: seq<Cipher>) {
    && 0 <= m < |allow| && first <= end <= |prio|
    && (exists i :: first <= i < end && Shared(prio[i], usable, allow) && IndexOf(allow, prio[i]).value == m)
    && forall i | first <= i < end && Shared(prio[i], usable, allow) :: m <= IndexOf(allow, prio[i]).value
  }

  lemma MinIsBest(m: nat, prio: seq<Cipher>, first: nat, last: nat, usable: set<Cipher>, allow: seq<Cipher>)
    requires MinOfPart(m, prio, first, last + 1, usable, allow) && first <= last
    ensures BestOfGroup(allow[m], prio, first, last, usable, allow)
    ensures !NoneShared(prio, 0, |prio|, usable, allow)
  {
    var i :| first <= i < last + 1 && Shared(prio[i], usable, allow) && IndexOf(allow, prio[i]).value == m;
    assert prio[first..last + 1][i - first] == prio[i];
  }

  /** `ssl3_choose_cipher` with the two lists. */
  method ChooseCipher(serverPreference: bool, server: seq<Cipher>, flags: seq<bool>, client: seq<Cipher>, usable: set<Cipher>)
    returns (r: Option<Cipher>)
    requires FlagsOk(Some(flags), server)
    ensures r.None? <==> forall c | c in server && c in client :: c !in usable
    ensures r.Some? && serverPreference ==> Chosen(r.value, server, Some(flags), client, usable)
    ensures r.Some? && !serverPreference ==> FirstOfClient(r.value, server, client, usable)
  {
    if serverPreference {
      r := Choose(server, Some(flags), client, usable);
      assert r.None? ==> forall c | c in server && c in client :: c !in usable;
      assert r.Some? ==> exists c :: c in server && c in client && c in usable by {
        if r.Some? {
          var i :| 0 <= i < |server| && Shared(server[i], usable, client);
          assert server[i] in server;
        }
      }
    } else {
      r := Choose(client, None, server, usable);
      if r.Some? {
        var i :| 0 <= i < |client| && Shared(client[i], usable, server);
        assert client[i] in client;
        ghost var first: nat, last: nat :|
          IsGroup(None, first, last) && BestOfGroup(r.value, client, first, last, usable, server) && NoneShared(client, 0, first, usable, server);
        assert client[first..last + 1] == [client[first]];
      }
    }
  }

  /** The client's first usable cipher that the server has too. */
  ghost predicate FirstOfClient(c: Cipher, server: seq<Cipher>, client: seq<Cipher>, usable: set<Cipher>) {
    exists i :: 0 <= i < |client| && client[i] == c && Shared(c, usable, server) && NoneShared(client, 0, i, usable, server)
  }
}
