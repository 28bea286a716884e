/** src/contract-utils.ts: ordering of ticks, and pair strings such as
    "ordi/sats". A string is a sequence of one-byte characters. */
module ContractUtils {
  import opened Wrappers
  import opened BigNum

  /** `a < b` on strings: the first differing character decides, and a proper
      prefix comes first. */
  predicate StrLess(a: string, b: string) {
    if b == "" then false
    else if a == "" then true
    else a[0] < b[0] || (a[0] == b[0] && StrLess(a[1..], b[1..]))
  }

  /** Of two different strings exactly one comes first. */
  lemma {:induction false} StrLessTotal(a: string, b: string)
    ensures a != b ==> (StrLess(a, b) <==> !StrLess(b, a))
    ensures a == b ==> !StrLess(a, b)
  {
    if a != "" && b != "" {
      StrLessTotal(a[1..], b[1..]);
      if a[0] == b[0] && a[1..] == b[1..] {
        assert a == [a[0]] + a[1..];
        assert b == [b[0]] + b[1..];
      }
    }
  }

  /** `sortTickParams` on the two ticks alone. */
  function SortTicks(tick0: string, tick1: string): (string, string) {
    if tick0 == "" || tick1 == "" || StrLess(tick0, tick1) then (tick0, tick1) else (tick1, tick0)
  }

  /** Whether `sortTickParams` exchanges the ticks, and with them the amounts. */
  predicate SwapsTicks(tick0: string, tick1: string) {
    tick0 != "" && tick1 != "" && !StrLess(tick0, tick1)
  }

  function PairStr(tick0: string, tick1: string): string {
    var (t0, t1) := SortTicks(tick0, tick1);
    t0 + "/" + t1
  }

  function PairStruct(pair: string): Result<(string, string), Error> {
    var tick0 := if |pair| < 4 then pair else pair[..4];
    var tick1 := if |pair| < 5 then "" else pair[5..];
    if SortTicks(tick0, tick1).0 == tick0 then Ok((tick0, tick1)) else Err(ServerError)
  }

  /** A plain tick has four characters. */
  predicate Plain(tick: string) {
    |tick| == 4
  }

  /** The shape of a pair string over plain ticks. */
  predicate PairShaped(s: string) {
    |s| == 9 && s[4] == '/'
  }

  /** The order in which a pool is named does not matter. */
  lemma PairStrSymmetric(tick0: string, tick1: string)
    requires tick0 != "" && tick1 != ""
    ensures PairStr(tick0, tick1) == PairStr(tick1, tick0)
    ensures SortTicks(tick0, tick1) == SortTicks(tick1, tick0)
  {
    StrLessTotal(tick0, tick1);
  }

  /** Decoding a pair string gives back its two ticks, in order. */
  lemma PairRoundTrip(tick0: string, tick1: string)
    requires Plain(tick0) && Plain(tick1)
    ensures PairShaped(PairStr(tick0, tick1))
    ensures PairStruct(PairStr(tick0, tick1)) == Ok(SortTicks(tick0, tick1))
  {
    var pair := PairStr(tick0, tick1);
    var (t0, t1) := SortTicks(tick0, tick1);
    assert pair[..4] == t0;
    assert pair[5..] == t1;
    StrLessTotal(tick0, tick1);
  }

  /** Different pools of plain ticks have different pair strings, so the ledgers,
      reserve accounts and kLast entries that they index never collide. */
  lemma PairInjective(a: string, b: string, c: string, d: string)
    requires Plain(a) && Plain(b) && Plain(c) && Plain(d)
    ensures PairStr(a, b) == PairStr(c, d) <==> (a == c && b == d) || (a == d && b == c)
  {
    PairRoundTrip(a, b);
    PairRoundTrip(c, d);
    PairStrSymmetric(a, b);
  }

  /** Without the length restriction two different pools can share a pair string. */
  lemma PairCollision()
    ensures PairStr("a/b", "c") == PairStr("a", "b/c")
  {
    assert StrLess("a/b", "c") && StrLess("a", "b/c");
    assert "a/b" + "/" + "c" == "a" + "/" + "b/c";
  }
}
