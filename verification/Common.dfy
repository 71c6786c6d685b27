/** Values shared by every module: optional values, instants and Go's string helpers. */
module Common {

  datatype Option<+T> = None | Some(value: T)

  /** An instant in nanoseconds. Zero is Go's zero `time.Time`, which no clock reading precedes. */
  type Time = nat

  /** One second of `Time`. */
  const SECOND: nat := 1_000_000_000

  /** `Time.Unix()`: whole seconds, rounding down. */
  function Unix(t: Time): nat {
    t / SECOND
  }

  function Max(a: int, b: int): int {
    if a < b then b else a
  }

  function Min(a: int, b: int): int {
    if a < b then a else b
  }

  // ----- strings -----

  /** Unicode White_Space, which is what strings.TrimSpace removes. */
  predicate IsSpace(c: char) {
    || '\U{9}' <= c <= '\U{D}' || c == ' ' || c == '\U{85}' || c == '\U{A0}' || c == '\U{1680}'
    || '\U{2000}' <= c <= '\U{200A}' || c == '\U{2028}' || c == '\U{2029}' || c == '\U{202F}'
    || c == '\U{205F}' || c == '\U{3000}'
  }

  function TrimLeft(s: string): string {
    if s != [] && IsSpace(s[0]) then TrimLeft(s[1..]) else s
  }

  function TrimRight(s: string): string {
    if s != [] && IsSpace(s[|s| - 1]) then TrimRight(s[..|s| - 1]) else s
  }

  /** strings.TrimSpace */
  function TrimSpace(s: string): string {
    TrimRight(TrimLeft(s))
  }

  /** strings.ToLower on the ASCII range; other characters stay as they are. */
  function ToLower(s: string): string {
    seq(|s|, i requires 0 <= i < |s| => if 'A' <= s[i] <= 'Z' then s[i] + 32 as char else s[i])
  }

  function HasPrefix(s: string, prefix: string): bool {
    prefix <= s
  }

  // ----- finite sets -----

  lemma SubsetSize<T>(a: set<T>, b: set<T>)
    requires a <= b
    ensures |a| <= |b|
    ensures |b - a| == |b| - |a|
    ensures |a| == |b| ==> a == b
  {
    assert b == a + (b - a);
  }

  function SetOf<T>(s: seq<T>): set<T> {
    set x | x in s
  }

  /** A list without repeats has as many elements as its set. */
  lemma {:induction false} DistinctSize<T>(s: seq<T>)
    requires forall i, j :: 0 <= i < j < |s| ==> s[i] != s[j]
    ensures |SetOf(s)| == |s|
  {
    if s == [] {
      assert SetOf(s) == {};
    } else {
      var init, last := s[..|s| - 1], s[|s| - 1];
      DistinctSize(init);
      assert SetOf(s) == SetOf(init) + {last};
    }
  }

  /** The positions below n at which p holds. */
  function Hits(p: nat -> bool, n: nat): set<nat> {
    set i: nat | i < n && p(i)
  }

  lemma HitsGrow(p: nat -> bool, n: nat)
    ensures |Hits(p, n + 1)| == |Hits(p, n)| + if p(n) then 1 else 0
  {
    if p(n) {
      assert Hits(p, n + 1) == Hits(p, n) + {n};
    } else {
      assert Hits(p, n + 1) == Hits(p, n);
    }
  }
}
