/**
 * Timeline deduplication, identical in both conversation displays: entries with the same
 * key `sender + "-" + message` collapse to their last occurrence, in the order of those
 * last occurrences.
 */
module MessageDedup {
  import opened WizeTypes
  import opened Seqs

  /** The deduplication key: sender and message text joined by "-"; `content` plays no part. */
  function Key(m: MessageRecord): string {
    m.sender + "-" + m.message
  }

  /** The set of keys occurring in a list. */
  function Keys(s: seq<MessageRecord>): set<string> {
    set m | m in s :: Key(m)
  }

  /** No two entries share a key. */
  predicate UniqueKeys(s: seq<MessageRecord>) {
    forall i, j | 0 <= i < j < |s| :: Key(s[i]) != Key(s[j])
  }

  /**
   * The reference definition: an entry is kept exactly when no later entry has its key.
   */
  function Dedup(s: seq<MessageRecord>): seq<MessageRecord> {
    if s == [] then []
    else if Key(s[0]) in Keys(s[1..]) then Dedup(s[1..])
    else [s[0]] + Dedup(s[1..])
  }

  /**
   * What the scan over the reversed copy collects: the first entry of each key, in
   * order of first appearance (the insertion order of the JavaScript `Map`).
   */
  function KeepFirst(s: seq<MessageRecord>): seq<MessageRecord> {
    if s == [] then []
    else
      var p := s[..|s| - 1];
      if Key(s[|s| - 1]) in Keys(p) then KeepFirst(p) else KeepFirst(p) + [s[|s| - 1]]
  }

  /** Position of the last entry of `s` with key `k`. */
  function LastIndex(s: seq<MessageRecord>, k: string): (r: nat)
    requires k in Keys(s)
    ensures r < |s| && Key(s[r]) == k
  {
    KeysCons(s);
    if k in Keys(s[1..]) then 1 + LastIndex(s[1..], k) else 0
  }

  /** No entry after that position has key `k`. */
  lemma {:induction false} LastIndexIsLast(s: seq<MessageRecord>, k: string)
    requires k in Keys(s)
    ensures forall j | LastIndex(s, k) < j < |s| :: Key(s[j]) != k
  {
    KeysCons(s);
    if k in Keys(s[1..]) {
      LastIndexIsLast(s[1..], k);
      forall j | LastIndex(s, k) < j < |s| ensures Key(s[j]) != k {
        assert s[j] == s[1..][j - 1];
      }
    } else {
      forall j | 0 < j < |s| ensures Key(s[j]) != k {
        assert s[j] in s[1..];
      }
    }
  }

  /** `r` can be obtained from `s` by deleting entries. */
  predicate IsSubsequence(r: seq<MessageRecord>, s: seq<MessageRecord>) {
    if r == [] then true
    else if s == [] then false
    else (r[0] == s[0] && IsSubsequence(r[1..], s[1..])) || IsSubsequence(r, s[1..])
  }

  lemma KeysCons(s: seq<MessageRecord>)
    requires s != []
    ensures Keys(s) == {Key(s[0])} + Keys(s[1..])
  {
    assert s == [s[0]] + s[1..];
    assert forall m :: m in s <==> m == s[0] || m in s[1..];
  }

  lemma KeysSnoc(p: seq<MessageRecord>, x: MessageRecord)
    ensures Keys(p + [x]) == Keys(p) + {Key(x)}
  {
    assert forall m :: m in p + [x] <==> m in p || m == x;
  }

  lemma KeysReverse(s: seq<MessageRecord>)
    ensures Keys(Reverse(s)) == Keys(s)
  {
    var r := Reverse(s);
    forall m | m in s ensures m in r {
      var i :| 0 <= i < |s| && s[i] == m;
      ReverseAt(s, |s| - 1 - i);
    }
    forall m | m in r ensures m in s {
      var i :| 0 <= i < |r| && r[i] == m;
      ReverseAt(s, i);
    }
  }

  /** Every key of the input survives, and no other. */
  lemma {:induction false} DedupKeys(s: seq<MessageRecord>)
    ensures Keys(Dedup(s)) == Keys(s)
  {
    if s != [] {
      DedupKeys(s[1..]);
      KeysCons(s);
      if Key(s[0]) !in Keys(s[1..]) {
        KeysCons(Dedup(s));
        assert Dedup(s)[1..] == Dedup(s[1..]);
      }
    }
  }

  /** After deduplication no two entries share a key. */
  lemma {:induction false} DedupUnique(s: seq<MessageRecord>)
    ensures UniqueKeys(Dedup(s))
  {
    if s != [] {
      DedupUnique(s[1..]);
      if Key(s[0]) !in Keys(s[1..]) {
        DedupKeys(s[1..]);
        var r := Dedup(s);
        forall i, j | 0 <= i < j < |r| ensures Key(r[i]) != Key(r[j]) {
          KeptHeadShift(s, j);
          if i == 0 {
            assert r[0] == s[0];
            assert r[j] in Dedup(s[1..]);
          } else {
            KeptHeadShift(s, i);
          }
        }
      }
    }
  }

  /** Each surviving entry is the last occurrence of its key in the input. */
  lemma {:induction false} DedupKeepsLast(s: seq<MessageRecord>)
    ensures forall i | 0 <= i < |Dedup(s)| :: Key(Dedup(s)[i]) in Keys(s) && Dedup(s)[i] == s[LastIndex(s, Key(Dedup(s)[i]))]
  {
    if s != [] {
      var t := s[1..];
      DedupKeepsLast(t);
      DedupKeys(t);
      KeysCons(s);
      var r := Dedup(s);
      forall i | 0 <= i < |r| ensures Key(r[i]) in Keys(s) && r[i] == s[LastIndex(s, Key(r[i]))] {
        if Key(s[0]) in Keys(t) {
          assert r[i] in Dedup(t);
          assert Key(r[i]) in Keys(t);
        } else if i == 0 {
          assert r[0] == s[0];
        } else {
          assert r[i] == Dedup(t)[i - 1];
          assert r[i] in Dedup(t);
          assert Key(r[i]) in Keys(t);
        }
      }
    }
  }

  lemma LastIndexCons(s: seq<MessageRecord>, k: string)
    requires s != [] && k in Keys(s[1..])
    ensures k in Keys(s) && LastIndex(s, k) == 1 + LastIndex(s[1..], k)
  {
    KeysCons(s);
  }

  lemma DedupMember(s: seq<MessageRecord>, i: nat)
    requires i < |Dedup(s)|
    ensures Key(Dedup(s)[i]) in Keys(s)
  {
    DedupKeys(s);
    assert Dedup(s)[i] in Dedup(s);
  }

  /** Putting an entry in front shifts every last occurrence in the rest by one, keeping their order. */
  lemma LastIndexConsOrder(s: seq<MessageRecord>, a: string, b: string)
    requires s != [] && a in Keys(s[1..]) && b in Keys(s[1..])
    requires LastIndex(s[1..], a) < LastIndex(s[1..], b)
    ensures a in Keys(s) && b in Keys(s) && LastIndex(s, a) < LastIndex(s, b)
  {
    LastIndexCons(s, a);
    LastIndexCons(s, b);
  }

  /** A head whose key does not recur is its key's last occurrence, before any key of the rest. */
  lemma LastIndexHead(s: seq<MessageRecord>, b: string)
    requires s != [] && Key(s[0]) !in Keys(s[1..]) && b in Keys(s[1..])
    ensures Key(s[0]) in Keys(s) && b in Keys(s) && LastIndex(s, Key(s[0])) < LastIndex(s, b)
  {
    KeysCons(s);
    LastIndexCons(s, b);
  }

  /** Behind a kept head, the survivors are those of the rest, one place on. */
  lemma KeptHeadShift(s: seq<MessageRecord>, i: nat)
    requires s != [] && Key(s[0]) !in Keys(s[1..]) && 0 < i < |Dedup(s)|
    ensures |Dedup(s)| == 1 + |Dedup(s[1..])| && Dedup(s)[i] == Dedup(s[1..])[i - 1]
  {
    assert Dedup(s) == [s[0]] + Dedup(s[1..]);
  }

  /** Two survivors of the rest keep their order in the whole list. */
  lemma {:induction false} OrderedInRest(s: seq<MessageRecord>, i: nat, j: nat)
    requires s != [] && i < j < |Dedup(s[1..])|
    ensures Key(Dedup(s[1..])[i]) in Keys(s) && Key(Dedup(s[1..])[j]) in Keys(s)
    ensures LastIndex(s, Key(Dedup(s[1..])[i])) < LastIndex(s, Key(Dedup(s[1..])[j]))
    decreases |s|, 0
  {
    var t := s[1..];
    DedupOrderedAt(t, i, j);
    LastIndexConsOrder(s, Key(Dedup(t)[i]), Key(Dedup(t)[j]));
  }

  /** The order of two survivors, when the head is dropped. */
  lemma {:induction false} OrderedPastDroppedHead(s: seq<MessageRecord>, i: nat, j: nat)
    requires s != [] && Key(s[0]) in Keys(s[1..]) && i < j < |Dedup(s)|
    ensures Key(Dedup(s)[i]) in Keys(s) && Key(Dedup(s)[j]) in Keys(s)
    ensures LastIndex(s, Key(Dedup(s)[i])) < LastIndex(s, Key(Dedup(s)[j]))
    decreases |s|, 1
  {
    assert Dedup(s) == Dedup(s[1..]);
    OrderedInRest(s, i, j);
  }

  /** The order of the kept head and a later survivor. */
  lemma OrderedAfterKeptHead(s: seq<MessageRecord>, j: nat)
    requires s != [] && Key(s[0]) !in Keys(s[1..]) && 0 < j < |Dedup(s)|
    ensures Key(Dedup(s)[0]) in Keys(s) && Key(Dedup(s)[j]) in Keys(s)
    ensures LastIndex(s, Key(Dedup(s)[0])) < LastIndex(s, Key(Dedup(s)[j]))
  {
    var t := s[1..];
    assert Dedup(s)[0] == s[0] && Dedup(s)[j] == Dedup(t)[j - 1];
    DedupMember(t, j - 1);
    LastIndexHead(s, Key(Dedup(t)[j - 1]));
  }

  /** The order of two survivors behind the kept head. */
  lemma {:induction false} OrderedBehindKeptHead(s: seq<MessageRecord>, i: nat, j: nat)
    requires s != [] && Key(s[0]) !in Keys(s[1..]) && 0 < i < j < |Dedup(s)|
    ensures Key(Dedup(s)[i]) in Keys(s) && Key(Dedup(s)[j]) in Keys(s)
    ensures LastIndex(s, Key(Dedup(s)[i])) < LastIndex(s, Key(Dedup(s)[j]))
    decreases |s|, 1
  {
    KeptHeadShift(s, i);
    KeptHeadShift(s, j);
    OrderedInRest(s, i - 1, j - 1);
  }

  lemma {:induction false} DedupOrderedAt(s: seq<MessageRecord>, i: nat, j: nat)
    requires i < j < |Dedup(s)|
    ensures Key(Dedup(s)[i]) in Keys(s) && Key(Dedup(s)[j]) in Keys(s)
    ensures LastIndex(s, Key(Dedup(s)[i])) < LastIndex(s, Key(Dedup(s)[j]))
    decreases |s|, 2
  {
    if Key(s[0]) in Keys(s[1..]) {
      OrderedPastDroppedHead(s, i, j);
    } else if i == 0 {
      OrderedAfterKeptHead(s, j);
    } else {
      OrderedBehindKeptHead(s, i, j);
    }
  }

  /** The survivors appear in the order of their keys' last occurrences. */
  lemma DedupOrderedByLastOccurrence(s: seq<MessageRecord>)
    ensures forall i | 0 <= i < |Dedup(s)| :: Key(Dedup(s)[i]) in Keys(s)
    ensures forall i, j | 0 <= i < j < |Dedup(s)| ::
      LastIndex(s, Key(Dedup(s)[i])) < LastIndex(s, Key(Dedup(s)[j]))
  {
    forall i | 0 <= i < |Dedup(s)| ensures Key(Dedup(s)[i]) in Keys(s) {
      DedupMember(s, i);
    }
    forall i, j | 0 <= i < j < |Dedup(s)|
      ensures LastIndex(s, Key(Dedup(s)[i])) < LastIndex(s, Key(Dedup(s)[j]))
    {
      DedupOrderedAt(s, i, j);
    }
  }

  /** The output keeps a subset of the entries, in input order, and is no longer. */
  lemma {:induction false} DedupSubsequence(s: seq<MessageRecord>)
    ensures IsSubsequence(Dedup(s), s)
    ensures |Dedup(s)| <= |s|
  {
    if s != [] {
      DedupSubsequence(s[1..]);
      if Key(s[0]) in Keys(s[1..]) {
        SubsequenceDropHead(Dedup(s[1..]), s);
      } else {
        var r := Dedup(s);
        assert r[0] == s[0] && r[1..] == Dedup(s[1..]);
      }
    }
  }

  lemma {:induction false} SubsequenceDropHead(r: seq<MessageRecord>, s: seq<MessageRecord>)
    requires s != [] && IsSubsequence(r, s[1..])
    ensures IsSubsequence(r, s)
  {
  }

  /** A list without repeated keys is left as it is. */
  lemma {:induction false} DedupOfUnique(s: seq<MessageRecord>)
    requires UniqueKeys(s)
    ensures Dedup(s) == s
  {
    if s != [] {
      var t := s[1..];
      assert UniqueKeys(t) by {
        forall i, j | 0 <= i < j < |t| ensures Key(t[i]) != Key(t[j]) {
          assert t[i] == s[i + 1] && t[j] == s[j + 1];
        }
      }
      DedupOfUnique(t);
      assert s == [s[0]] + t;
    }
  }

  /** Deduplicating twice is the same as once; the empty log stays empty. */
  lemma DedupIdempotent(s: seq<MessageRecord>)
    ensures Dedup(Dedup(s)) == Dedup(s)
    ensures Dedup([]) == []
  {
    DedupUnique(s);
    DedupOfUnique(Dedup(s));
  }

  lemma {:induction false} KeepFirstKeys(s: seq<MessageRecord>)
    ensures Keys(KeepFirst(s)) == Keys(s)
  {
    if s != [] {
      var p, x := s[..|s| - 1], s[|s| - 1];
      assert s == p + [x];
      KeepFirstKeys(p);
      KeysSnoc(p, x);
      if Key(x) !in Keys(p) {
        KeysSnoc(KeepFirst(p), x);
      }
    }
  }

  /** Scanning the reversed list for first occurrences and reversing back is the reference definition. */
  lemma {:induction false} ReverseKeepFirstReverse(s: seq<MessageRecord>)
    ensures Reverse(KeepFirst(Reverse(s))) == Dedup(s)
  {
    if s != [] {
      var x, t := s[0], s[1..];
      var rt := Reverse(t);
      assert Reverse(s) == rt + [x];
      assert (rt + [x])[..|rt + [x]| - 1] == rt;
      KeysReverse(t);
      ReverseKeepFirstReverse(t);
      if Key(x) !in Keys(t) {
        ReverseAppend(KeepFirst(rt), x);
      }
    }
  }

  /**
   * `deduplicateMessages`: walk a reversed copy, put each entry into an insertion-ordered
   * map unless its key is already there, then reverse the map's values. The map is held
   * as its key set `seen` and its values in insertion order `kept`; entries are only ever
   * added, never overwritten.
   */
  method DeduplicateMessages(messages: seq<MessageRecord>) returns (display: seq<MessageRecord>)
    ensures display == Dedup(messages)
  {
    var reversed := Reverse(messages);
    var seen: set<string> := {};
    var kept: seq<MessageRecord> := [];
    var i := 0;
    while i < |reversed|
      invariant 0 <= i <= |reversed|
      invariant kept == KeepFirst(reversed[..i])
      invariant seen == Keys(reversed[..i])
    {
      var message := reversed[i];
      var key := Key(message);
      assert reversed[..i + 1] == reversed[..i] + [message];
      KeysSnoc(reversed[..i], message);
      if key !in seen {
        seen := seen + {key};
        kept := kept + [message];
      }
      i := i + 1;
    }
    assert reversed[..i] == reversed;
    display := Reverse(kept);
    ReverseKeepFirstReverse(messages);
  }
}
