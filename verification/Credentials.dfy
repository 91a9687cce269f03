/** The credential codec (auth/credentialing/credentials.go): a list of model names, sorted, each
    behind its length in four little-endian bytes. Strings are their bytes; a byte above 126 or
    below 32 anywhere is what the character check refuses. */
module Credentials {
  import opened Bytes
  import opened Sorting

  type Str = seq<Byte>

  const PREFIX_LEN := 4

  // ---------- Bytewise order ----------

  function Leq(a: Str, b: Str): (r: bool)
  {
    if a == [] then true
    else if b == [] then false
    else a[0] < b[0] || (a[0] == b[0] && Leq(a[1..], b[1..]))
  }

  lemma {:induction false} LeqTotal(a: Str, b: Str)
    ensures Leq(a, b) || Leq(b, a)
  {
    if a != [] && b != [] { LeqTotal(a[1..], b[1..]); }
  }

  lemma {:induction false} LeqTransitive(a: Str, b: Str, c: Str)
    ensures Leq(a, b) && Leq(b, c) ==> Leq(a, c)
  {
    if a != [] && b != [] && c != [] { LeqTransitive(a[1..], b[1..], c[1..]); }
  }

  lemma {:induction false} LeqAntisymmetric(a: Str, b: Str)
    ensures Leq(a, b) && Leq(b, a) ==> a == b
  {
    if a != [] && b != [] {
      LeqAntisymmetric(a[1..], b[1..]);
      assert a == [a[0]] + a[1..] && b == [b[0]] + b[1..];
    }
  }

  lemma LeqIsOrder()
    ensures TotalPreorder(Leq) && Antisymmetric(Leq)
  {
    forall a, b ensures Leq(a, b) || Leq(b, a) { LeqTotal(a, b); }
    forall a, b, c ensures Leq(a, b) && Leq(b, c) ==> Leq(a, c) { LeqTransitive(a, b, c); }
    forall a, b ensures Leq(a, b) && Leq(b, a) ==> a == b { LeqAntisymmetric(a, b); }
  }

  /** Where two strings first differ, the first has the smaller byte. */
  predicate SmallerAt(a: Str, b: Str, k: nat)
  {
    k < |a| && k < |b| && a[..k] == b[..k] && a[k] < b[k]
  }

  /** The order of sort.Strings: a prefix comes first, else the smaller byte decides. */
  ghost predicate Ascending(a: Str, b: Str)
  {
    a <= b || exists k: nat :: SmallerAt(a, b, k)
  }

  lemma {:induction false} LeqIsAscending(a: Str, b: Str)
    ensures Leq(a, b) <==> Ascending(a, b)
  {
    if a != [] && b != [] && a[0] == b[0] {
      LeqIsAscending(a[1..], b[1..]);
      assert a == [a[0]] + a[1..] && b == [b[0]] + b[1..];
      forall k: nat | SmallerAt(a[1..], b[1..], k) ensures SmallerAt(a, b, k + 1) {
        assert a[..k + 1] == [a[0]] + a[1..][..k] && b[..k + 1] == [b[0]] + b[1..][..k];
      }
      forall k: nat | SmallerAt(a, b, k) ensures k > 0 && SmallerAt(a[1..], b[1..], k - 1) {
        assert a[1..][..k - 1] == a[..k][1..] && b[1..][..k - 1] == b[..k][1..];
      }
    } else if a != [] && b != [] {
      assert a[0] < b[0] ==> SmallerAt(a, b, 0);
      forall k: nat | SmallerAt(a, b, k) ensures a[0] < b[0] { assert a[..k] == b[..k]; }
    }
  }

  ghost predicate AllAscending(strs: seq<Str>)
  {
    forall i, j | 0 <= i < j < |strs| :: Ascending(strs[i], strs[j])
  }

  lemma SortedIsAscending(strs: seq<Str>)
    ensures SortedBy(strs, Leq) <==> AllAscending(strs)
  {
    forall i, j | 0 <= i < j < |strs| ensures Leq(strs[i], strs[j]) <==> Ascending(strs[i], strs[j]) {
      LeqIsAscending(strs[i], strs[j]);
    }
  }

  // ---------- The codec ----------

  predicate IsValidASCII(s: Str)
  {
    forall i | 0 <= i < |s| :: 32 <= s[i] < 127
  }

  predicate Valid(s: Str)
  {
    IsValidASCII(s) && 0 < |s| < TWO32
  }

  predicate AllValid(strs: seq<Str>)
  {
    forall i | 0 <= i < |strs| :: Valid(strs[i])
  }

  function EncodeString(s: Str): (r: Option<Str>)
  {
    if !Valid(s) then None else Some(LittleEndian32(|s|) + s)
  }

  function EncodeList(strs: seq<Str>): (r: Option<Str>)
  {
    if strs == [] then Some([])
    else
      var rest := EncodeList(strs[1..]);
      if !Valid(strs[0]) || rest.None? then None else Some(EncodeString(strs[0]).value + rest.value)
  }

  /** The encoding of a list is that of the list sorted. */
  function EncodeStrings(strs: seq<Str>): (r: Option<Str>)
  {
    EncodeList(Sort(strs, Leq))
  }

  function DecodeString(buf: Str): (r: Option<(Str, Str)>)
    ensures r.Some? ==> |r.value.1| < |buf|
  {
    if |buf| < PREFIX_LEN then None
    else
      var n := FromLittleEndian32(buf[..PREFIX_LEN]);
      if n == 0 || |buf| - PREFIX_LEN < n then None
      else
        var s := buf[PREFIX_LEN..PREFIX_LEN + n];
        if !IsValidASCII(s) then None else Some((s, buf[PREFIX_LEN + n..]))
  }

  function DecodeList(buf: Str): (r: Option<seq<Str>>)
    decreases |buf|
  {
    if buf == [] then Some([])
    else
      var head := DecodeString(buf);
      if head.None? then None
      else
        var tail := DecodeList(head.value.1);
        if tail.None? then None else Some([head.value.0] + tail.value)
  }

  function DecodeStrings(buf: Str): (r: Option<seq<Str>>)
  {
    var strs := DecodeList(buf);
    if strs.None? || !SortedBy(strs.value, Leq) then None else strs
  }

  /** Every byte is a character from the blank to the tilde. */
  predicate Printable(s: Str)
  {
    forall b | b in s :: ' ' as int <= b <= '~' as int
  }

  lemma ValidIsPrintable(strs: seq<Str>)
    ensures AllValid(strs) <==> forall s | s in strs :: 1 <= |s| <= 0xFFFF_FFFF && Printable(s)
  {
    forall i | 0 <= i < |strs| ensures Valid(strs[i]) <==> 1 <= |strs[i]| <= 0xFFFF_FFFF && Printable(strs[i]) {
      var s := strs[i];
      if Printable(s) { forall k | 0 <= k < |s| ensures 32 <= s[k] < 127 { assert s[k] in s; } }
    }
  }

  // ---------- What is written ----------

  /** A string behind its length, the lowest byte of it first. */
  lemma StringLayout(s: Str)
    requires Valid(s)
    ensures var e := EncodeString(s).value;
            && |e| == 4 + |s| && e[4..] == s
            && e[0] == |s| % 256 && e[1] == |s| / 256 % 256
            && e[2] == |s| / 0x1_0000 % 256 && e[3] == |s| / 0x100_0000
  {
    LittleEndian32Bytes(|s|);
  }

  /** Where the i-th string starts. */
  function Offset(strs: seq<Str>, i: nat): (n: nat)
    requires i <= |strs|
  {
    if i == 0 then 0 else 4 + |strs[0]| + Offset(strs[1..], i - 1)
  }

  /** The strings are written one behind the other, with nothing before, between or after them. */
  lemma {:induction false} ListLayout(strs: seq<Str>, i: nat)
    requires AllValid(strs) && i <= |strs|
    ensures EncodeList(strs).Some?
    ensures var (buf, n) := (EncodeList(strs).value, Offset(strs, i));
            && n <= |buf| && (i == |strs| ==> n == |buf|)
            && (i < |strs| ==> EncodeString(strs[i]).value <= buf[n..])
    decreases |strs|
  {
    if strs != [] {
      var first, rest := EncodeString(strs[0]).value, strs[1..];
      ListLayout(rest, if i == 0 then 0 else i - 1);
      var buf := EncodeList(rest).value;
      if i > 0 { assert (first + buf)[Offset(strs, i)..] == buf[Offset(rest, i - 1)..]; }
    }
  }

  // ---------- Decoding inverts encoding ----------

  lemma DecodeEncoded(s: Str, rest: Str)
    requires Valid(s)
    ensures DecodeString(EncodeString(s).value + rest) == Some((s, rest))
  {
    var buf := LittleEndian32(|s|) + s + rest;
    assert buf[..PREFIX_LEN] == LittleEndian32(|s|);
    assert buf[PREFIX_LEN..PREFIX_LEN + |s|] == s && buf[PREFIX_LEN + |s|..] == rest;
  }

  lemma EncodeDecoded(buf: Str)
    requires DecodeString(buf).Some?
    ensures var (s, rest) := DecodeString(buf).value; Valid(s) && buf == EncodeString(s).value + rest
  {
    var (s, rest) := DecodeString(buf).value;
    LittleEndian32Canonical(buf[..PREFIX_LEN]);
    assert buf == buf[..PREFIX_LEN] + s + rest;
  }

  lemma {:induction false} EncodeListAccepts(strs: seq<Str>)
    ensures EncodeList(strs).Some? <==> AllValid(strs)
  {
    if strs != [] { EncodeListAccepts(strs[1..]); }
  }

  lemma {:induction false} DecodeListInverts(strs: seq<Str>)
    requires AllValid(strs)
    ensures EncodeList(strs).Some? && DecodeList(EncodeList(strs).value) == Some(strs)
  {
    EncodeListAccepts(strs);
    if strs != [] {
      DecodeListInverts(strs[1..]);
      DecodeEncoded(strs[0], EncodeList(strs[1..]).value);
      assert strs == [strs[0]] + strs[1..];
    }
  }

  lemma {:induction false} EncodeListInverts(buf: Str)
    requires DecodeList(buf).Some?
    ensures EncodeList(DecodeList(buf).value) == Some(buf)
    decreases |buf|
  {
    if buf != [] {
      EncodeDecoded(buf);
      var (s, rest) := DecodeString(buf).value;
      EncodeListInverts(rest);
      assert DecodeList(buf).value[1..] == DecodeList(rest).value;
    }
  }

  lemma SortedIsSort(strs: seq<Str>)
    requires SortedBy(strs, Leq)
    ensures Sort(strs, Leq) == strs
  {
    LeqIsOrder();
    SortSorts(strs, Leq);
    SortedUnique(Sort(strs, Leq), strs, Leq);
  }

  lemma SortAllValid(strs: seq<Str>)
    ensures AllValid(Sort(strs, Leq)) <==> AllValid(strs)
  {
    LeqIsOrder();
    SortSorts(strs, Leq);
    var sorted := Sort(strs, Leq);
    Members(sorted, strs);
    assert AllValid(strs) <==> forall x | x in strs :: Valid(x);
    assert AllValid(sorted) <==> forall x | x in sorted :: Valid(x);
  }

  /** Encoding works exactly on lists of non-empty printable strings, and decoding the
      encoding gives the list sorted. */
  lemma RoundTrip(strs: seq<Str>)
    ensures EncodeStrings(strs).Some? <==> AllValid(strs)
    ensures EncodeStrings(strs).Some? <==> forall s | s in strs :: 1 <= |s| <= 0xFFFF_FFFF && Printable(s)
    ensures AllValid(strs) ==> DecodeStrings(EncodeStrings(strs).value) == Some(Sort(strs, Leq))
    ensures AllAscending(Sort(strs, Leq)) && multiset(Sort(strs, Leq)) == multiset(strs)
  {
    SortAscends(strs);
    SortAllValid(strs);
    ValidIsPrintable(strs);
    LeqIsOrder();
    SortSorts(strs, Leq);
    EncodeListAccepts(Sort(strs, Leq));
    if AllValid(strs) { DecodeListInverts(Sort(strs, Leq)); }
  }

  /** What decodes is in ascending order, and strings out of that order are refused. */
  lemma DecodesAscending(buf: Str)
    ensures DecodeStrings(buf).Some? <==> DecodeList(buf).Some? && AllAscending(DecodeList(buf).value)
  {
    if DecodeList(buf).Some? { SortedIsAscending(DecodeList(buf).value); }
  }

  /** There is one encoding of each list: a byte string that decodes is the encoding of what
      it decodes to. So exactly the encodings decode. */
  lemma Canonical(buf: Str)
    ensures DecodeStrings(buf).Some? ==> EncodeStrings(DecodeStrings(buf).value) == Some(buf)
    ensures DecodeStrings(buf).Some? <==> exists strs :: EncodeStrings(strs) == Some(buf)
  {
    if DecodeStrings(buf).Some? {
      EncodeListInverts(buf);
      SortedIsSort(DecodeStrings(buf).value);
    }
    if strs :| EncodeStrings(strs) == Some(buf) { RoundTrip(strs); }
  }

  /** Two lists have the same encoding exactly when they hold the same strings as often. */
  lemma InjectiveOnMultisets(a: seq<Str>, b: seq<Str>)
    requires AllValid(a) && AllValid(b)
    ensures EncodeStrings(a) == EncodeStrings(b) <==> multiset(a) == multiset(b)
  {
    RoundTrip(a);
    RoundTrip(b);
    LeqIsOrder();
    SortSorts(a, Leq);
    SortSorts(b, Leq);
    if multiset(a) == multiset(b) { SortedUnique(Sort(a, Leq), Sort(b, Leq), Leq); }
  }

  // ---------- The loops ----------

  lemma {:induction false} EncodeListSnoc(strs: seq<Str>, s: Str)
    ensures EncodeList(strs + [s]) ==
            if EncodeList(strs).None? || !Valid(s) then None
            else Some(EncodeList(strs).value + EncodeString(s).value)
  {
    if strs == [] {
      assert strs + [s] == [s];
      assert EncodeList([s][1..]) == Some([]);
      assert Valid(s) ==> EncodeString(s).value + [] == [] + EncodeString(s).value;
    } else {
      EncodeListSnoc(strs[1..], s);
      assert (strs + [s])[1..] == strs[1..] + [s];
      if EncodeList(strs).Some? && Valid(s) {
        var first, rest, last := EncodeString(strs[0]).value, EncodeList(strs[1..]).value, EncodeString(s).value;
        assert first + (rest + last) == first + rest + last;
      }
    }
  }

  lemma EncodeListFails(strs: seq<Str>, i: nat)
    requires i < |strs| && !Valid(strs[i])
    ensures EncodeList(strs) == None
  {
    EncodeListAccepts(strs);
  }

  lemma SortAscends(strs: seq<Str>)
    ensures AllAscending(Sort(strs, Leq)) && multiset(Sort(strs, Leq)) == multiset(strs) && |Sort(strs, Leq)| == |strs|
  {
    LeqIsOrder();
    SortSorts(strs, Leq);
    SortedIsAscending(Sort(strs, Leq));
    Members(Sort(strs, Leq), strs);
  }

  method SortStrings(strs: array<Str>)
    modifies strs
    ensures AllAscending(strs[..]) && multiset(strs[..]) == multiset(old(strs[..]))
    ensures strs[..] == Sort(old(strs[..]), Leq)
  {
    var sorted := Sort(strs[..], Leq);
    SortAscends(strs[..]);
    forall i | 0 <= i < strs.Length { strs[i] := sorted[i]; }
    assert strs[..] == sorted;
  }

  method Write(strs: seq<Str>) returns (r: Option<Str>)
    ensures r == EncodeList(strs)
  {
    var buf: Str := [];
    var i := 0;
    while i < |strs|
      invariant 0 <= i <= |strs|
      invariant EncodeList(strs[..i]) == Some(buf)
    {
      var s := EncodeString(strs[i]);
      if s.None? {
        EncodeListFails(strs, i);
        return None;
      }
      EncodeListSnoc(strs[..i], strs[i]);
      assert strs[..i + 1] == strs[..i] + [strs[i]];
      buf := buf + s.value;
      i := i + 1;
    }
    assert strs[..i] == strs;
    return Some(buf);
  }

  /** encodeStrings sorts the caller's list in place and writes it into a buffer. */
  method Encode(strs: array<Str>) returns (r: Option<Str>)
    modifies strs
    ensures AllAscending(strs[..]) && multiset(strs[..]) == multiset(old(strs[..]))
    ensures r == EncodeStrings(old(strs[..])) == EncodeList(strs[..])
  {
    SortStrings(strs);
    r := Write(strs[..]);
  }

  /** decodeStrings consumes its buffer string by string, then checks the order. */
  method Decode(buf: Str) returns (r: Option<seq<Str>>)
    ensures r == DecodeStrings(buf)
  {
    var rest, strs: seq<Str> := buf, [];
    while |rest| > 0
      invariant DecodeList(buf).Some? <==> DecodeList(rest).Some?
      invariant DecodeList(rest).Some? ==> DecodeList(buf).value == strs + DecodeList(rest).value
      decreases |rest|
    {
      var next := DecodeString(rest);
      if next.None? { return None; }
      strs := strs + [next.value.0];
      rest := next.value.1;
    }
    assert DecodeList(buf).value == strs;
    if !SortedBy(strs, Leq) { return None; }
    return Some(strs);
  }
}
