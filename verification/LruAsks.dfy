/** Which items the replay asks for, and when: told by the layer numbers of the log instead of by the order in which the
    replay works through them. */
module LruAsks {
  import opened Collections
  import opened Lru

  ghost function LayersBelow(token: map<int, seq<int>>, layer: int): set<int> {
    set l | l in token.Keys && l < layer
  }

  /** An access asks for the experts of one layer, in the order logged. */
  ghost predicate Asks(access: seq<Item>, layer: int, experts: seq<int>) {
    && |access| == |experts|
    && forall i :: 0 <= i < |experts| ==> access[i].layer == layer && access[i].expert == experts[i]
  }

  /** In a rising list, the element at `k` has exactly `k` smaller ones. */
  lemma {:induction false} RisingRank(s: seq<int>, k: nat)
    requires k < |s| && forall i, j :: 0 <= i < j < |s| ==> s[i] < s[j]
    ensures |set x | x in s && x < s[k]| == k
  {
    if k > 0 {
      RisingRank(s, k - 1);
      OneMoreBelow(s, k);
    } else {
      assert (set x | x in s && x < s[k]) == {};
    }
  }

  lemma OneMoreBelow(s: seq<int>, k: nat)
    requires 0 < k < |s| && forall i, j :: 0 <= i < j < |s| ==> s[i] < s[j]
    ensures (set x | x in s && x < s[k]) == (set x | x in s && x < s[k - 1]) + {s[k - 1]}
  {
    forall x | x in s && x < s[k] ensures x <= s[k - 1] {
      var i :| 0 <= i < |s| && s[i] == x;
      RisingOrder(s, if i < k then i else k, if i < k then k - 1 else i);
    }
  }

  lemma RisingOrder(s: seq<int>, i: nat, j: nat)
    requires i <= j < |s| && forall i, j :: 0 <= i < j < |s| ==> s[i] < s[j]
    ensures s[i] <= s[j]
  {
  }

  lemma {:induction false} AscendingLength(s: set<int>)
    ensures |Ascending(s)| == |s|
    decreases |s|
  {
    if s != {} {
      var m := AscendingCons(s);
      AscendingLength(s - {m});
    }
  }

  lemma PlaceOfLayer(token: map<int, seq<int>>, layer: int) returns (k: nat)
    requires layer in token
    ensures k == |LayersBelow(token, layer)| < |Ascending(token.Keys)| && Ascending(token.Keys)[k] == layer
  {
    var layers := Ascending(token.Keys);
    AscendingAscends(token.Keys);
    hide Ascending;
    assert forall x :: x in layers <==> x in token;
    k :| 0 <= k < |layers| && layers[k] == layer;
    RisingRank(layers, k);
    assert LayersBelow(token, layer) == set x | x in layers && x < layers[k];
  }

  /** Every layer of a token is asked for once, after exactly the layers with smaller numbers. */
  lemma LayerIsAskedInTurn(token: map<int, seq<int>>, layer: int)
    requires layer in token
    ensures |TokenAccesses(token)| == |token.Keys| > |LayersBelow(token, layer)|
    ensures Asks(TokenAccesses(token)[|LayersBelow(token, layer)|], layer, token[layer])
  {
    AscendingLength(token.Keys);
    var k := PlaceOfLayer(token, layer);
    hide Ascending;
  }

  /** How many layers the tokens have in all. */
  ghost function LayersIn(tokens: seq<map<int, seq<int>>>): nat {
    if tokens == [] then 0 else LayersIn(tokens[..|tokens| - 1]) + |tokens[|tokens| - 1].Keys|
  }

  lemma TokenLength(token: map<int, seq<int>>)
    ensures |TokenAccesses(token)| == |token.Keys|
  {
    AscendingLength(token.Keys);
  }

  lemma {:induction false} AccessesLength(tokens: seq<map<int, seq<int>>>)
    ensures |Accesses(tokens)| == LayersIn(tokens)
  {
    if tokens != [] {
      AccessesLength(tokens[..|tokens| - 1]);
      TokenLength(tokens[|tokens| - 1]);
    }
  }

  lemma Associates<T>(a: seq<T>, b: seq<T>, c: seq<T>)
    ensures a + (b + c) == (a + b) + c
  {
  }

  lemma AccessesSnoc(tokens: seq<map<int, seq<int>>>, token: map<int, seq<int>>)
    ensures Accesses(tokens + [token]) == Accesses(tokens) + TokenAccesses(token)
  {
    assert (tokens + [token])[..|tokens|] == tokens;
    hide TokenAccesses;
  }

  lemma {:induction false} AccessesConcat(a: seq<map<int, seq<int>>>, b: seq<map<int, seq<int>>>)
    ensures Accesses(a + b) == Accesses(a) + Accesses(b)
  {
    if b == [] {
      assert a + b == a;
    } else {
      hide *;
      var front, last := b[..|b| - 1], b[|b| - 1];
      assert b == front + [last];
      AccessesConcat(a, front);
      Associates(a, front, [last]);
      AccessesSnoc(a + front, last);
      AccessesSnoc(front, last);
      Associates(Accesses(a), Accesses(front), TokenAccesses(last));
    }
  }

  lemma OneToken(token: map<int, seq<int>>)
    ensures Accesses([token]) == TokenAccesses(token)
  {
    assert [token][..0] == [];
    assert Accesses([]) == [];
  }

  lemma AccessesAround(tokens: seq<map<int, seq<int>>>, t: nat)
    requires t < |tokens|
    ensures Accesses(tokens) == Accesses(tokens[..t]) + (TokenAccesses(tokens[t]) + Accesses(tokens[t + 1..]))
  {
    hide *;
    AtToken(tokens, t);
    AccessesConcat(tokens[..t], [tokens[t]] + tokens[t + 1..]);
    AccessesConcat([tokens[t]], tokens[t + 1..]);
    OneToken(tokens[t]);
  }

  lemma AtToken<T>(s: seq<T>, t: nat)
    requires t < |s|
    ensures s == s[..t] + ([s[t]] + s[t + 1..])
  {
  }

  lemma Inner(a: seq<seq<Item>>, b: seq<seq<Item>>, c: seq<seq<Item>>, k: nat)
    requires k < |b|
    ensures |a| + k < |a + (b + c)| && (a + (b + c))[|a| + k] == b[k]
  {
  }

  /** The whole log: the access for a layer of token `t` comes after those of all earlier tokens and of the token's
      smaller layers, and asks for that layer's experts. */
  lemma AskedInLogOrder(tokens: seq<map<int, seq<int>>>, t: nat, layer: int)
    requires t < |tokens| && layer in tokens[t]
    ensures |Accesses(tokens)| == LayersIn(tokens)
    ensures LayersIn(tokens[..t]) + |LayersBelow(tokens[t], layer)| < |Accesses(tokens)|
    ensures Asks(Accesses(tokens)[LayersIn(tokens[..t]) + |LayersBelow(tokens[t], layer)|], layer, tokens[t][layer])
  {
    hide *;
    LayerIsAskedInTurn(tokens[t], layer);
    AccessesLength(tokens);
    AccessesLength(tokens[..t]);
    AccessesAround(tokens, t);
    Inner(Accesses(tokens[..t]), TokenAccesses(tokens[t]), Accesses(tokens[t + 1..]), |LayersBelow(tokens[t], layer)|);
  }
}
