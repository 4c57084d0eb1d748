/**
 * update_freq.py: the character model of a text source. Every line is stripped
 * of surrounding whitespace, its characters are counted into a Counter and its
 * length added to a running total; then every count is divided by the total.
 * The file is given as its list of lines; the division is exact.
 */
module UpdateFreq {
  import opened Strings

  /** The stripped lines, concatenated in file order: the text that is counted. */
  function Flat(lines: seq<string>): string
    decreases |lines|
  {
    if |lines| == 0 then "" else Flat(lines[..|lines| - 1]) + Strip(lines[|lines| - 1])
  }

  /** No key repeats; the key order of a dict. */
  predicate DistinctKeys(order: seq<char>) {
    forall i, j :: 0 <= i < j < |order| ==> order[i] != order[j]
  }

  /** Sum of the counts, over the keys in dict order. */
  function Sum(order: seq<char>, c: map<char, nat>): nat
    decreases |order|
  {
    if |order| == 0 then 0
    else Sum(order[..|order| - 1], c) + (if order[|order| - 1] in c then c[order[|order| - 1]] else 0)
  }

  /** Sum of the frequencies, over the keys in dict order. */
  function SumReal(order: seq<char>, f: map<char, real>): real
    decreases |order|
  {
    if |order| == 0 then 0.0
    else SumReal(order[..|order| - 1], f) + (if order[|order| - 1] in f then f[order[|order| - 1]] else 0.0)
  }

  /** Changing the count of a key outside the order leaves the sum alone. */
  lemma {:induction false} SumOutside(order: seq<char>, c: map<char, nat>, ch: char, v: nat)
    requires ch !in order
    ensures Sum(order, c[ch := v]) == Sum(order, c)
    decreases |order|
  {
    if |order| > 0 {
      SumOutside(order[..|order| - 1], c, ch, v);
    }
  }

  /** Adding one to the count of a key that occurs once in the order adds one to the sum. */
  lemma {:induction false} SumIncrement(order: seq<char>, c: map<char, nat>, ch: char)
    requires DistinctKeys(order) && ch in order && ch in c
    ensures Sum(order, c[ch := c[ch] + 1]) == Sum(order, c) + 1
    decreases |order|
  {
    var init := order[..|order| - 1];
    if order[|order| - 1] == ch {
      assert ch !in init;
      SumOutside(init, c, ch, c[ch] + 1);
    } else {
      assert ch in init;
      SumIncrement(init, c, ch);
    }
  }

  /** A single count never exceeds the sum. */
  lemma {:induction false} SumAtLeast(order: seq<char>, c: map<char, nat>, k: char)
    requires k in order && k in c
    ensures c[k] <= Sum(order, c)
    decreases |order|
  {
    if order[|order| - 1] != k {
      SumAtLeast(order[..|order| - 1], c, k);
    }
  }

  /** The key order lists every key of the Counter exactly once. */
  predicate KeyOrder(order: seq<char>, c: map<char, nat>) {
    DistinctKeys(order) && forall k :: k in order <==> k in c
  }

  /** The Counter of `text`: a key per character that occurs, mapped to its number of occurrences. */
  ghost predicate Counts(c: map<char, nat>, text: string) {
    && (forall k :: k in c <==> k in multiset(text))
    && (forall k :: k in c ==> c[k] == multiset(text)[k])
  }

  /** What the Counter holds after counting `text`, and the sum of its counts. */
  ghost predicate Counted(order: seq<char>, c: map<char, nat>, text: string) {
    KeyOrder(order, c) && Counts(c, text) && Sum(order, c) == |text|
  }

  /** A new key goes to the end of the key order. */
  lemma KeyOrderNew(order: seq<char>, c: map<char, nat>, ch: char)
    requires KeyOrder(order, c) && ch !in c
    ensures KeyOrder(order + [ch], c[ch := 1])
  {
    var order' := order + [ch];
    assert ch !in order;
    forall i, j | 0 <= i < j < |order'| ensures order'[i] != order'[j] {
      assert order'[i] == order[i];
    }
    assert forall k :: k in order' <==> k == ch || k in order;
  }

  /** Counting one more character `ch`, new or seen before. */
  lemma CountsAdd(c: map<char, nat>, ch: char, text: string)
    requires Counts(c, text)
    ensures Counts(c[ch := if ch in c then c[ch] + 1 else 1], text + [ch])
  {
    assert multiset(text + [ch]) == multiset(text) + multiset{ch};
  }

  /** One `c[ch] += 1`: a new key joins the order at its end. */
  method CountOne(order: seq<char>, c: map<char, nat>, ch: char, ghost text: string)
    returns (order': seq<char>, c': map<char, nat>)
    requires Counted(order, c, text)
    ensures Counted(order', c', text + [ch])
    ensures order' == if ch in c then order else order + [ch]
  {
    if ch in c {
      CountedAgain(order, c, ch, text);
      order', c' := order, c[ch := c[ch] + 1];
    } else {
      CountedNew(order, c, ch, text);
      order', c' := order + [ch], c[ch := 1];
    }
  }

  /** Counting a character seen before adds one to its count. */
  lemma CountedAgain(order: seq<char>, c: map<char, nat>, ch: char, text: string)
    requires Counted(order, c, text) && ch in c
    ensures Counted(order, c[ch := c[ch] + 1], text + [ch])
  {
    CountsAdd(c, ch, text);
    SumIncrement(order, c, ch);
  }

  /** Counting a new character gives it the count 1 and appends it to the key order. */
  lemma CountedNew(order: seq<char>, c: map<char, nat>, ch: char, text: string)
    requires Counted(order, c, text) && ch !in c
    ensures Counted(order + [ch], c[ch := 1], text + [ch])
  {
    KeyOrderNew(order, c, ch);
    CountsAdd(c, ch, text);
    assert ch !in order;
    SumOutside(order, c, ch, 1);
    assert Sum(order + [ch], c[ch := 1]) == Sum(order, c[ch := 1]) + 1;
  }

  /** Line 19: `c += Counter(line.strip())`, one character at a time. */
  method CountLine(order: seq<char>, c: map<char, nat>, s: string, ghost done: string)
    returns (order': seq<char>, c': map<char, nat>)
    requires Counted(order, c, done)
    ensures Counted(order', c', done + s)
  {
    order', c' := order, c;
    var j := 0;
    while j < |s|
      invariant 0 <= j <= |s|
      invariant Counted(order', c', done + s[..j])
    {
      assert done + s[..j + 1] == (done + s[..j]) + [s[j]];
      order', c' := CountOne(order', c', s[j], done + s[..j]);
      j := j + 1;
    }
    assert s[..j] == s;
  }

  /** Lines 18-20 for line `i`: its stripped text is counted and its length added to the total. */
  method CountNext(lines: seq<string>, i: nat, order: seq<char>, c: map<char, nat>, cnt: nat)
    returns (order': seq<char>, c': map<char, nat>, cnt': nat)
    requires i < |lines| && cnt == |Flat(lines[..i])|
    requires Counted(order, c, Flat(lines[..i]))
    ensures cnt' == |Flat(lines[..i + 1])|
    ensures Counted(order', c', Flat(lines[..i + 1]))
  {
    var s := Strip(lines[i]);
    assert lines[..i + 1][..i] == lines[..i];
    order', c' := CountLine(order, c, s, Flat(lines[..i]));
    cnt' := cnt + |s|;
  }

  /** The Counter of a text has a key exactly when the text is not empty. */
  lemma CountedEmpty(order: seq<char>, c: map<char, nat>, text: string)
    requires Counted(order, c, text)
    ensures |text| == 0 <==> c == map[]
  {
    if |text| > 0 {
      assert text[0] in multiset(text);
    } else {
      assert forall k :: k !in c;
    }
  }

  /**
   * Lines 15-20: `c` counts every character of the stripped lines, `cnt` is their
   * total length, `order` is the Counter's key order.
   */
  method CountChars(lines: seq<string>) returns (order: seq<char>, c: map<char, nat>, cnt: nat)
    ensures cnt == |Flat(lines)|
    ensures Counted(order, c, Flat(lines))
    ensures cnt == 0 <==> c == map[]
  {
    order, c, cnt := [], map[], 0;
    var i := 0;
    while i < |lines|
      invariant 0 <= i <= |lines|
      invariant cnt == |Flat(lines[..i])|
      invariant Counted(order, c, Flat(lines[..i]))
    {
      order, c, cnt := CountNext(lines, i, order, c, cnt);
      i := i + 1;
    }
    assert lines[..i] == lines;
    CountedEmpty(order, c, Flat(lines));
  }

  /**
   * Lines 24-25: every count is replaced, in key order, by its share of the total;
   * None where Python raises ZeroDivisionError (keys but a zero total).
   */
  method Normalise(order: seq<char>, c: map<char, nat>, cnt: nat) returns (freq: Option<map<char, real>>)
    requires DistinctKeys(order) && forall k :: k in order <==> k in c
    ensures freq.None? <==> cnt == 0 && c != map[]
    ensures freq.Some? ==> freq.value.Keys == c.Keys
    ensures freq.Some? ==> forall k :: k in c ==> cnt > 0 && freq.value[k] == c[k] as real / cnt as real
  {
    if cnt == 0 && |order| > 0 {
      assert order[0] in c;
      return None;
    }
    if cnt == 0 {
      assert forall k :: k !in c;
      return Some(map[]);
    }
    var f := Shares(order, c, cnt);
    freq := Some(f);
  }

  /** Lines 24-25 with a positive total: `c[key] = float(c[key]) / cnt`, key by key. */
  method Shares(order: seq<char>, c: map<char, nat>, cnt: nat) returns (f: map<char, real>)
    requires DistinctKeys(order) && (forall k :: k in order <==> k in c) && cnt > 0
    ensures f.Keys == c.Keys
    ensures forall k :: k in c ==> f[k] == c[k] as real / cnt as real
  {
    f := map k | k in c :: c[k] as real;
    var i := 0;
    while i < |order|
      invariant 0 <= i <= |order|
      invariant f.Keys == c.Keys
      invariant forall j :: 0 <= j < i ==> f[order[j]] == c[order[j]] as real / cnt as real
      invariant forall j :: i <= j < |order| ==> f[order[j]] == c[order[j]] as real
    {
      f := f[order[i] := f[order[i]] / cnt as real];
      i := i + 1;
    }
    forall k | k in c ensures f[k] == c[k] as real / cnt as real {
      var j :| 0 <= j < |order| && order[j] == k;
    }
  }

  /** Division distributes over a sum. */
  lemma DivAdd(a: real, b: real, n: real)
    requires n > 0.0
    ensures (a + b) / n == a / n + b / n
  {
  }

  /** Summing frequencies is summing counts and dividing by the total. */
  lemma {:induction false} SumReals(order: seq<char>, c: map<char, nat>, f: map<char, real>, cnt: nat)
    requires cnt > 0
    requires forall k :: k in order ==> (k in c <==> k in f)
    requires forall k :: k in order && k in c ==> f[k] == c[k] as real / cnt as real
    ensures SumReal(order, f) == Sum(order, c) as real / cnt as real
    decreases |order|
  {
    if |order| > 0 {
      var init, last := order[..|order| - 1], order[|order| - 1];
      SumReals(init, c, f, cnt);
      DivAdd(Sum(init, c) as real, if last in c then c[last] as real else 0.0, cnt as real);
    }
  }

  /** A part of a whole, as a share, lies in (0, 1]. */
  lemma Share(a: nat, n: nat)
    requires 0 < a <= n
    ensures 0.0 < a as real / n as real <= 1.0
    ensures a == n ==> a as real / n as real == 1.0
  {
    var q := a as real / n as real;
    assert q * n as real == a as real;
  }

  /** Each share lies in (0, 1]: a count is positive and at most the total. */
  lemma FreqBounds(order: seq<char>, c: map<char, nat>, cnt: nat, freq: map<char, real>, text: string)
    requires Counted(order, c, text) && cnt == |text|
    requires freq.Keys == c.Keys
    requires forall k :: k in c ==> cnt > 0 && freq[k] == c[k] as real / cnt as real
    ensures forall k :: k in freq ==> 0.0 < freq[k] <= 1.0
  {
    forall k | k in freq ensures 0.0 < freq[k] <= 1.0 {
      SumAtLeast(order, c, k);
      Share(c[k], cnt);
    }
  }

  /**
   * The whole script (lines 15-26): every character of the stripped lines gets its
   * relative frequency, exact and in (0, 1]; the frequencies sum to 1 when there is
   * text, and the model is empty (line 25 never runs) when there is none.
   */
  method CharModel(lines: seq<string>) returns (cnt: nat, order: seq<char>, freq: map<char, real>)
    ensures cnt == |Flat(lines)|
    ensures DistinctKeys(order) && forall k :: k in order <==> k in freq
    ensures forall k :: k in freq <==> k in multiset(Flat(lines))
    ensures forall k :: k in freq ==> cnt > 0 && freq[k] == multiset(Flat(lines))[k] as real / cnt as real
    ensures forall k :: k in freq ==> 0.0 < freq[k] <= 1.0
    ensures cnt == 0 ==> freq == map[]
    ensures cnt > 0 ==> SumReal(order, freq) == 1.0
  {
    var c;
    order, c, cnt := CountChars(lines);
    var r := Normalise(order, c, cnt);
    assert r.Some?;
    freq := r.value;
    FreqBounds(order, c, cnt, freq, Flat(lines));
    if cnt > 0 {
      SumReals(order, c, freq, cnt);
      Share(cnt, cnt);
      assert Sum(order, c) as real / cnt as real == 1.0;
    }
  }
}
