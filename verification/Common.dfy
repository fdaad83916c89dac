/** Small value types shared by the models. */
module Common {

  datatype Option<+T> = None | Some(value: T)

  /** An operation of a foreign service: its answer, or the fact that it failed. */
  datatype Reply<+T> = Answer(value: T) | Failed

  /**
   How a transaction ends for its caller.  Releasing the connection can fail behind the commit, and
   the caller then sees an error although everything was written.
   */
  datatype TxEnd = Succeeded | RolledBack | CommittedThenFailed

  /** Namespace parts joined with dots. */
  function JoinNamespace(parts: seq<string>): string {
    if parts == [] then ""
    else if |parts| == 1 then parts[0]
    else parts[0] + "." + JoinNamespace(parts[1..])
  }

  /** Seen from its end, a namespace grows by a dot and a part. */
  lemma {:induction false} JoinOneMore(parts: seq<string>, part: string)
    ensures JoinNamespace([]) == ""
    ensures JoinNamespace(parts + [part]) == if parts == [] then part else JoinNamespace(parts) + "." + part
  {
    if parts != [] {
      assert (parts + [part])[1..] == parts[1..] + [part];
      JoinOneMore(parts[1..], part);
    }
  }

  /** A detection trigger; only some sources know the table that a snapshot belongs to. */
  datatype Hit = Hit(tenant: string, location: string, source: string, table: string)

  /** What a catalog answers to an accepted commit. */
  datatype CommitResult = CommitResult(snapshotId: int, location: string)

  /** Characters that may be spliced into a Cypher literal. */
  predicate SafeChar(c: char) {
    || 'a' <= c <= 'z'
    || 'A' <= c <= 'Z'
    || '0' <= c <= '9'
    || c in "._-/:@+=~%?&,[]()* "
  }

  predicate SafeLiteral(s: string) {
    forall c | c in s :: SafeChar(c)
  }

  /** What is left out of printable ASCII, among it what could end a literal or the block around it. */
  predicate Breaks(c: char) {
    || c == '\'' || c == '\"' || c == '\\' || c == '$' || c == '{' || c == '}' || c == '`' || c == ';'
    || c == '<' || c == '>' || c == '!' || c == '^' || c == '|' || c == '#'
  }

  lemma SafeIff(c: char)
    ensures SafeChar(c) <==> ' ' <= c <= '~' && !Breaks(c)
  {
    var others := "._-/:@+=~%?&,[]()* ";
    assert |others| == 19;
    assert c in others <==> exists i :: 0 <= i < 19 && others[i] == c;
  }

  /** Adding an entry to an LRU of the given size: a full cache gives up some other key. */
  ghost predicate LruAdded<K, V>(m: map<K, V>, m': map<K, V>, k: K, v: V, size: nat) {
    if k in m || |m| < size then m' == m[k := v]
    else exists victim :: victim in m && m' == (m - {victim})[k := v]
  }

  lemma UpdateGrowsByOne<K, V>(m: map<K, V>, k: K, v: V)
    ensures |m[k := v]| <= |m| + 1
    ensures k in m ==> |m[k := v]| == |m|
  {
    assert m[k := v].Keys == m.Keys + {k};
    if k in m {
      assert m[k := v].Keys == m.Keys;
    }
  }

  lemma ReplaceKeepsSize<K, V>(m: map<K, V>, victim: K, k: K, v: V)
    requires victim in m
    ensures |(m - {victim})[k := v]| <= |m|
  {
    assert (m - {victim}).Keys == m.Keys - {victim};
    assert |m.Keys - {victim}| == |m.Keys| - 1;
    UpdateGrowsByOne(m - {victim}, k, v);
  }

  lemma LruAddKeepsSize<K, V>(m: map<K, V>, m': map<K, V>, k: K, v: V, size: nat)
    requires |m| <= size && LruAdded(m, m', k, v, size)
    ensures |m'| <= size
  {
    if k in m || |m| < size {
      UpdateGrowsByOne(m, k, v);
    } else {
      var victim :| victim in m && m' == (m - {victim})[k := v];
      ReplaceKeepsSize(m, victim, k, v);
    }
  }
}
