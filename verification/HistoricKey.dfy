/** The printed key under which a closed connection is archived. */
module HistoricKey {

  function Digit(d: nat): char
    requires d < 10
  {
    '0' + d as char
  }

  /** Decimal notation without leading zeros. */
  function Decimal(n: nat): (s: string)
    ensures s != [] && ':' !in s
  {
    if n < 10 then [Digit(n)] else Decimal(n / 10) + [Digit(n % 10)]
  }

  /** Times before the epoch count as the epoch itself. */
  function SinceEpoch(t: int): nat { if t < 0 then 0 else t }

  function HistoricKey(key: string, createdAt: int): string {
    key + ":" + Decimal(SinceEpoch(createdAt))
  }

  predicate IsDigit(c: char) { '0' <= c <= '9' }

  /** The number that a string of digits denotes. */
  function ValueOf(s: string): nat
    requires forall c :: c in s ==> IsDigit(c)
  {
    if s == [] then 0
    else
      var k := |s| - 1;
      assert IsDigit(s[k]);
      10 * ValueOf(s[..k]) + (s[k] as int - '0' as int)
  }

  /** The printed number can be read back, and has no leading zero. */
  lemma {:induction false} DecimalIsRead(n: nat)
    ensures forall c :: c in Decimal(n) ==> IsDigit(c)
    ensures ValueOf(Decimal(n)) == n
    ensures n > 0 ==> Decimal(n)[0] != '0'
    ensures n == 0 ==> Decimal(n) == "0"
  {
    if n < 10 {
      assert Decimal(n)[..0] == [];
    } else {
      DecimalIsRead(n / 10);
      assert Decimal(n)[..|Decimal(n)| - 1] == Decimal(n / 10);
    }
  }

  /**
   * The archive key is the live key, a colon and the time since the epoch in decimal notation,
   * which is zero for an earlier time.
   */
  lemma ArchiveKeyFormat(key: string, createdAt: int)
    ensures var k := HistoricKey(key, createdAt);
            && |k| > |key| + 1 && k[..|key| + 1] == key + ":"
            && (forall c :: c in k[|key| + 1..] ==> IsDigit(c))
            && ValueOf(k[|key| + 1..]) == (if createdAt > 0 then createdAt else 0)
            && (k[|key| + 1] == '0' ==> |k| == |key| + 2)
  {
    var n := SinceEpoch(createdAt);
    DecimalIsRead(n);
    assert HistoricKey(key, createdAt)[|key| + 1..] == Decimal(n);
  }

  lemma {:induction false} DecimalIsInjective(m: nat, n: nat)
    requires Decimal(m) == Decimal(n)
    ensures m == n
  {
    var (s, t) := (Decimal(m), Decimal(n));
    assert s[|s| - 1] == t[|t| - 1];
    if m >= 10 && n >= 10 {
      assert Decimal(m / 10) == s[..|s| - 1] == t[..|t| - 1] == Decimal(n / 10);
      DecimalIsInjective(m / 10, n / 10);
    }
  }

  lemma SplitAtLastColon(k1: string, d1: string, k2: string, d2: string)
    requires k1 + ":" + d1 == k2 + ":" + d2
    requires ':' !in d1 && ':' !in d2
    ensures k1 == k2 && d1 == d2
  {
    var s := k1 + ":" + d1;
    assert s[|k1|] == ':' && s[|k2|] == ':';
    if |k1| == |k2| {
      assert k1 == s[..|k1|] && d1 == s[|k1| + 1..];
      assert k2 == s[..|k2|] && d2 == s[|k2| + 1..];
    }
  }

  /**
   * Two archived connections share a slot exactly when they had the same live key and were
   * created at the same time, all times before the epoch being one.
   */
  lemma ArchiveKeyLaw(key1: string, t1: int, key2: string, t2: int)
    ensures HistoricKey(key1, t1) == HistoricKey(key2, t2) <==> key1 == key2 && SinceEpoch(t1) == SinceEpoch(t2)
  {
    if HistoricKey(key1, t1) == HistoricKey(key2, t2) {
      SplitAtLastColon(key1, Decimal(SinceEpoch(t1)), key2, Decimal(SinceEpoch(t2)));
      DecimalIsInjective(SinceEpoch(t1), SinceEpoch(t2));
    }
  }
}
