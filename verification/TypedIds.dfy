/** Prefixed ids of agent/shared/src/ids.rs: `<prefix>_<11 base-62 digits>`. */
module TypedIds {
  import opened Wrappers
  import opened Order
  import opened Base62
  import opened Text
  import S = Snowflake

  const SEPARATOR: string := "_"

  /** `new_typed_id` for a given snowflake. */
  ghost function TypedId(prefix: string, snowflake: nat): string {
    prefix + SEPARATOR + Encoded(snowflake)
  }

  method NewTypedId(prefix: string, snowflake: nat) returns (id: string)
    requires snowflake < TWO_TO_64
    ensures id == TypedId(prefix, snowflake)
  {
    var suffix := EncodeFixed(snowflake);
    id := prefix + SEPARATOR + suffix;
  }

  /** `is_typed_id`. */
  method IsTypedId(value: string, prefix: string) returns (ok: bool)
    ensures ok <==> exists n: nat :: n < TWO_TO_64 && value == TypedId(prefix, n)
  {
    ValidExactlyWhenIssued(value, prefix);
    var rest := StripPrefix(value, prefix);
    if rest.None? {
      return false;
    }
    var suffix := StripPrefix(rest.value, SEPARATOR);
    if suffix.None? {
      return false;
    }
    var s := suffix.value;
    if |s| != WIDTH || exists i :: 0 <= i < |s| && !IsDigit(s[i]) {
      return false;
    }
    var decoded := Decode(s);
    ok := decoded.Some?;
  }

  /** The shape test on its own: both prefixes strip, and the rest is eleven
      digits that decode. */
  ghost predicate WellShaped(value: string, prefix: string) {
    && StripPrefix(value, prefix).Some?
    && var rest := StripPrefix(value, prefix).value;
    && StripPrefix(rest, SEPARATOR).Some?
    && var suffix := StripPrefix(rest, SEPARATOR).value;
    && |suffix| == WIDTH && AllDigits(suffix) && Decoded(suffix).Some?
  }

  /** The shape test accepts exactly the ids that could have been issued. */
  lemma ValidExactlyWhenIssued(value: string, prefix: string)
    ensures WellShaped(value, prefix) <==> exists n: nat :: n < TWO_TO_64 && value == TypedId(prefix, n)
  {
    if WellShaped(value, prefix) {
      var suffix := value[|prefix|..][1..];
      EncodeDecode(suffix);
      assert value == prefix + SEPARATOR + suffix;
      assert value == TypedId(prefix, Decoded(suffix).value);
    }
    forall n: nat | n < TWO_TO_64 && value == TypedId(prefix, n) ensures WellShaped(value, prefix) {
      DecodeEncode(n);
      assert value[|prefix|..] == SEPARATOR + Encoded(n);
      assert value[|prefix|..][1..] == Encoded(n);
    }
  }

  /** No text is an id of two prefixes, and an id determines its number. */
  lemma PrefixAndNumberAreDetermined(p: string, q: string, n: nat, m: nat)
    requires n < TWO_TO_64 && m < TWO_TO_64
    requires TypedId(p, n) == TypedId(q, m)
    ensures p == q && n == m
  {
    var v := TypedId(p, n);
    assert |v| == |p| + 1 + WIDTH == |q| + 1 + WIDTH;
    assert p == v[..|p|] == q;
    assert Encoded(n) == v[|p| + 1..] == Encoded(m);
    EncodeOrdered(n, m);
  }

  /** Ids of one prefix sort as their numbers do. */
  lemma SamePrefixOrder(prefix: string, n: nat, m: nat)
    requires n < TWO_TO_64 && m < TWO_TO_64
    ensures Less(TypedId(prefix, n), TypedId(prefix, m)) <==> n < m
  {
    LessPrefix(prefix + SEPARATOR, Encoded(n), Encoded(m));
    EncodeOrdered(n, m);
  }

  /** Lexicographic order is publication order: over every interleaving of any
      number of threads whose clock stays in the representable range, an id
      published by an earlier swap sorts before one published by a later swap. */
  lemma PublicationOrder(actions: seq<S.Action>, process: nat, prefix: string, i: nat, j: nat)
    requires process < 1024
    requires var w := S.Run(S.START, actions, process);
             && i < |w.ids| && j < |w.ids|
             && S.EPOCH <= S.FirstMillis(w) && w.word / 4096 < S.EPOCH + S.TWO_TO_42
    ensures var w := S.Run(S.START, actions, process);
            Less(TypedId(prefix, w.ids[i]), TypedId(prefix, w.ids[j])) <==> i < j
  {
    S.IdsIncrease(actions, process);
    var w := S.Run(S.START, actions, process);
    SamePrefixOrder(prefix, w.ids[i], w.ids[j]);
  }

  /** In any run, ids of one prefix sort in publication order exactly when the time
      field grows whenever a new millisecond is stored. */
  lemma PublicationOrderExactlyWhen(actions: seq<S.Action>, process: nat, prefix: string)
    requires process < 1024
    ensures var w := S.Run(S.START, actions, process);
            && |w.writes| == |w.ids| + 1
            && ((forall i, j :: 0 <= i < j < |w.ids| ==> Less(TypedId(prefix, w.ids[i]), TypedId(prefix, w.ids[j])))
                <==> forall i :: 0 < i < |w.ids| ==> S.MovesOnAt(w, i))
  {
    S.IncreaseExactlyWhen(actions, process);
    S.IdsFit(actions, process);
    var w := S.Run(S.START, actions, process);
    forall i, j | 0 <= i < j < |w.ids|
      ensures Less(TypedId(prefix, w.ids[i]), TypedId(prefix, w.ids[j])) <==> w.ids[i] < w.ids[j]
    {
      SamePrefixOrder(prefix, w.ids[i], w.ids[j]);
    }
  }
}
