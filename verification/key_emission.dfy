/**
 * The last stage of `main()`: skip every key that is not active, fetch each active key's
 * body and print one authorized-keys line per successful fetch.
 *
 * The source starts one goroutine per active key and waits for all of them; here the
 * fetches run one after another in listing order, which is one of the orders the
 * concurrent program can print in.
 */
module KeyEmission {
  import opened Directory

  predicate IsActive(k: KeySummary)
  {
    k.status == ActiveStatus
  }

  /** What `fmt.Printf("%s # %s\n", body, user)` writes for one fetched key. */
  function Line(body: string, user: string): string
  {
    body + " # " + user + "\n"
  }

  /** The keys the loop does not skip, in listing order. */
  function Active(keys: seq<KeySummary>): (r: seq<KeySummary>)
    ensures |r| <= |keys|
    ensures forall k :: k in r ==> k in keys && IsActive(k)
    ensures forall k :: k in keys && IsActive(k) ==> k in r
  {
    if keys == [] then []
    else (if IsActive(keys[0]) then [keys[0]] else []) + Active(keys[1..])
  }

  /** The `GetSSHPublicKey` call the loop makes for one key: none when the key is not active. */
  function FetchOf(key: KeySummary, user: string): seq<Request>
  {
    if IsActive(key) then [GetSSHPublicKey(user, key.id)] else []
  }

  /** The line printed for one key: none when it is skipped or its fetch fails. */
  function LineOf(key: KeySummary, user: string, bodies: map<string, string>): seq<string>
  {
    if IsActive(key) && key.id in bodies then [Line(bodies[key.id], user)] else []
  }

  /** The `GetSSHPublicKey` calls the whole loop makes, in listing order. */
  function Fetches(keys: seq<KeySummary>, user: string): seq<Request>
  {
    if keys == [] then [] else FetchOf(keys[0], user) + Fetches(keys[1..], user)
  }

  /** The lines the whole loop prints, in listing order. */
  function Lines(keys: seq<KeySummary>, user: string, bodies: map<string, string>): seq<string>
  {
    if keys == [] then [] else LineOf(keys[0], user, bodies) + Lines(keys[1..], user, bodies)
  }

  lemma {:induction false} ActiveConcat(a: seq<KeySummary>, b: seq<KeySummary>)
    ensures Active(a + b) == Active(a) + Active(b)
  {
    if a == [] {
      assert a + b == b;
    } else {
      assert (a + b)[1..] == a[1..] + b;
      ActiveConcat(a[1..], b);
    }
  }

  lemma {:induction false} FetchesConcat(a: seq<KeySummary>, b: seq<KeySummary>, user: string)
    ensures Fetches(a + b, user) == Fetches(a, user) + Fetches(b, user)
  {
    if a == [] {
      assert a + b == b;
    } else {
      assert (a + b)[1..] == a[1..] + b;
      FetchesConcat(a[1..], b, user);
    }
  }

  lemma {:induction false} LinesConcat(a: seq<KeySummary>, b: seq<KeySummary>, user: string, bodies: map<string, string>)
    ensures Lines(a + b, user, bodies) == Lines(a, user, bodies) + Lines(b, user, bodies)
  {
    if a == [] {
      assert a + b == b;
    } else {
      assert (a + b)[1..] == a[1..] + b;
      LinesConcat(a[1..], b, user, bodies);
    }
  }

  /**
   * The fetch loop (`for _, key := range keys` with `continue` on a non-active status,
   * one `GetSSHPublicKey` per remaining key, a line for each success).
   */
  method EmitKeys(keys: seq<KeySummary>, user: string, bodies: map<string, string>)
    returns (lines: seq<string>, requests: seq<Request>)
    ensures lines == Lines(keys, user, bodies)
    ensures requests == Fetches(keys, user)
  {
    lines, requests := [], [];
    for i := 0 to |keys|
      invariant lines == Lines(keys[..i], user, bodies)
      invariant requests == Fetches(keys[..i], user)
    {
      var key := keys[i];
      assert keys[..i + 1] == keys[..i] + [key];
      FetchesConcat(keys[..i], [key], user);
      LinesConcat(keys[..i], [key], user, bodies);
      if !IsActive(key) {
        continue;
      }
      requests := requests + [GetSSHPublicKey(user, key.id)];
      var body := FetchBody(bodies, key.id);
      if body.Some? {
        lines := lines + [Line(body.value, user)];
      }
    }
    assert keys[..|keys|] == keys;
  }

  /** Exactly the active keys are fetched, each once per listing entry, and nothing else is requested. */
  lemma {:induction false} FetchesExactlyActive(keys: seq<KeySummary>, user: string)
    ensures |Fetches(keys, user)| == |Active(keys)|
    ensures forall r :: r in Fetches(keys, user) ==> r.GetSSHPublicKey? && r.user == user
    ensures forall id :: GetSSHPublicKey(user, id) in Fetches(keys, user)
                     <==> exists k :: k in keys && IsActive(k) && k.id == id
  {
    if keys != [] {
      FetchesExactlyActive(keys[1..], user);
      assert keys == [keys[0]] + keys[1..];
    }
  }

  /** Every printed line is `body # user` for an active key whose fetch succeeded, and every such key is printed. */
  lemma {:induction false} LinesAreSuccessfulFetches(keys: seq<KeySummary>, user: string, bodies: map<string, string>)
    ensures forall l :: l in Lines(keys, user, bodies) ==>
      exists k :: k in keys && IsActive(k) && k.id in bodies && l == Line(bodies[k.id], user)
    ensures forall k :: k in keys && IsActive(k) && k.id in bodies ==> Line(bodies[k.id], user) in Lines(keys, user, bodies)
  {
    if keys != [] {
      LinesAreSuccessfulFetches(keys[1..], user, bodies);
      assert keys == [keys[0]] + keys[1..];
    }
  }

  /** The positions of the listing whose key is active and whose fetch succeeds. */
  ghost function Succeeding(keys: seq<KeySummary>, bodies: map<string, string>): set<nat>
  {
    set i: nat | i < |keys| && IsActive(keys[i]) && keys[i].id in bodies
  }

  /** Appending a key adds its position exactly when it is active and its fetch succeeds. */
  lemma SucceedingSnoc(s: seq<KeySummary>, k: KeySummary, bodies: map<string, string>)
    ensures Succeeding(s + [k], bodies)
      == Succeeding(s, bodies) + (if IsActive(k) && k.id in bodies then {|s|} else {})
    ensures |s| !in Succeeding(s, bodies)
  {
    var keys := s + [k];
    forall i: nat | i < |s|
      ensures keys[i] == s[i]
    {
    }
  }

  /** One key's contribution: a line exactly when it is active and its fetch succeeds. */
  lemma LinesOne(k: KeySummary, user: string, bodies: map<string, string>)
    ensures |Lines([k], user, bodies)| == (if IsActive(k) && k.id in bodies then 1 else 0)
    ensures |Active([k])| == (if IsActive(k) then 1 else 0)
  {
    assert [k][1..] == [];
  }

  /** The positions of the listing whose key is active. */
  ghost function ActivePositions(keys: seq<KeySummary>): set<nat>
  {
    set i: nat | i < |keys| && IsActive(keys[i])
  }

  /** Appending a key adds its position exactly when it is active. */
  lemma ActivePositionsSnoc(s: seq<KeySummary>, k: KeySummary)
    ensures ActivePositions(s + [k]) == ActivePositions(s) + (if IsActive(k) then {|s|} else {})
    ensures |s| !in ActivePositions(s)
  {
    var keys := s + [k];
    forall i: nat | i < |s|
      ensures keys[i] == s[i]
    {
    }
  }

  /** `Active` keeps every active position once: its length is the number of active keys, duplicates counted. */
  lemma {:induction false} ActiveCount(keys: seq<KeySummary>)
    ensures |Active(keys)| == |ActivePositions(keys)|
    decreases |keys|
  {
    if keys == [] {
      assert ActivePositions(keys) == {};
    } else {
      var s, k := keys[..|keys| - 1], keys[|keys| - 1];
      assert keys == s + [k];
      ActiveCount(s);
      ActiveConcat(s, [k]);
      assert [k][1..] == [];
      ActivePositionsSnoc(s, k);
    }
  }

  /**
   * Of the active keys, exactly those whose fetch succeeds produce a line: as many lines as
   * successful fetches, never more than there are active keys.
   */
  lemma {:induction false} LinesCount(keys: seq<KeySummary>, user: string, bodies: map<string, string>)
    ensures |Lines(keys, user, bodies)| == |Succeeding(keys, bodies)|
    ensures |Lines(keys, user, bodies)| <= |Active(keys)|
    decreases |keys|
  {
    if keys == [] {
      assert Succeeding(keys, bodies) == {};
    } else {
      var s, k := keys[..|keys| - 1], keys[|keys| - 1];
      assert keys == s + [k];
      LinesCount(s, user, bodies);
      LinesConcat(s, [k], user, bodies);
      ActiveConcat(s, [k]);
      LinesOne(k, user, bodies);
      SucceedingSnoc(s, k, bodies);
    }
  }

  /**
   * The loop as written, compiled at a Go language version before 1.22 (an older toolchain, or a
   * `go.mod` whose `go` line is below 1.22 or missing): all goroutines share the one
   * loop variable `key` and read its id only when they run. Under the schedule in which none
   * of them runs before the loop has finished, every fetch asks for the last listed key.
   */
  function LateBoundFetches(keys: seq<KeySummary>, user: string): seq<Request>
    requires keys != []
  {
    seq(|Active(keys)|, _ => GetSSHPublicKey(user, keys[|keys| - 1].id))
  }

  /** One active key followed by an inactive one: the late-bound loop fetches the inactive key instead. */
  lemma LateBindingFetchesInactiveKey()
    ensures var keys := [KeySummary("k1", ActiveStatus), KeySummary("k2", "Inactive")];
      !IsActive(keys[1])
      && LateBoundFetches(keys, "alice") == [GetSSHPublicKey("alice", "k2")]
      && Fetches(keys, "alice") == [GetSSHPublicKey("alice", "k1")]
  {
    var keys := [KeySummary("k1", ActiveStatus), KeySummary("k2", "Inactive")];
    assert keys[1..][1..] == [];
    assert Active(keys) == [keys[0]];
    assert Fetches(keys[1..], "alice") == [];
  }

  /** The intended fetches are the active keys' ids, position by position. */
  lemma {:induction false} FetchesOfActive(keys: seq<KeySummary>, user: string)
    ensures |Fetches(keys, user)| == |Active(keys)|
    ensures forall i :: 0 <= i < |Active(keys)| ==> Fetches(keys, user)[i] == GetSSHPublicKey(user, Active(keys)[i].id)
  {
    if keys != [] {
      FetchesOfActive(keys[1..], user);
    }
  }

  /**
   * The late-bound loop makes the intended fetches exactly when every active key carries the
   * id of the last listed key; any other listing makes it fetch a wrong key.
   */
  lemma {:induction false} LateBindingDiffersUnlessSameId(keys: seq<KeySummary>, user: string)
    requires keys != []
    ensures LateBoundFetches(keys, user) == Fetches(keys, user)
      <==> forall k :: k in keys && IsActive(k) ==> k.id == keys[|keys| - 1].id
  {
    var active := Active(keys);
    var last := keys[|keys| - 1].id;
    FetchesOfActive(keys, user);
    if LateBoundFetches(keys, user) == Fetches(keys, user) {
      forall k | k in keys && IsActive(k)
        ensures k.id == last
      {
        var i :| 0 <= i < |active| && active[i] == k;
        assert LateBoundFetches(keys, user)[i] == Fetches(keys, user)[i];
      }
    }
    if forall k :: k in keys && IsActive(k) ==> k.id == last {
      forall i | 0 <= i < |active|
        ensures LateBoundFetches(keys, user)[i] == Fetches(keys, user)[i]
      {
        assert active[i] in active;
      }
    }
  }
}
