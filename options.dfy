/**
 * The "ports" option of the JACK plugin: a comma-separated list of port
 * names turned into a NULL-terminated array of strings by repeated
 * strtok_r calls, and the loop that frees such an array again.
 */
module Options {
  import opened CTypes

  const Comma: char := ','

  /*------------------------------------------------------------------
   * Reference definition: split at every comma, then drop empty fields
   *------------------------------------------------------------------*/

  /** The fields between commas, empty ones included: "a,,b" gives ["a", "", "b"]. */
  function SplitAtCommas(s: string): (fs: seq<string>)
    ensures |fs| > 0
  {
    if s == [] then [[]]
    else
      var rest := SplitAtCommas(s[1..]);
      if s[0] == Comma then [[]] + rest
      else [[s[0]] + rest[0]] + rest[1..]
  }

  function NonEmpty(fs: seq<string>): (r: seq<string>)
    ensures |r| <= |fs|
    ensures forall i :: 0 <= i < |r| ==> r[i] != []
  {
    if fs == [] then []
    else if fs[0] == [] then NonEmpty(fs[1..])
    else [fs[0]] + NonEmpty(fs[1..])
  }

  /** The port names a "ports" value denotes. */
  function Fields(s: string): seq<string>
  {
    NonEmpty(SplitAtCommas(s))
  }

  lemma {:induction false} NonEmptyAppend(a: seq<string>, b: seq<string>)
    ensures NonEmpty(a + b) == NonEmpty(a) + NonEmpty(b)
  {
    if a == [] {
      assert a + b == b;
    } else {
      assert (a + b)[1..] == a[1..] + b;
      NonEmptyAppend(a[1..], b);
    }
  }

  /*------------------------------------------------------------------
   * strtok_r(input, ",", &save_p), with the save pointer as an index
   *------------------------------------------------------------------*/

  /** First position at or after p that does not hold a comma. */
  function SkipCommas(s: string, p: nat): (q: nat)
    requires p <= |s|
    ensures p <= q <= |s|
    ensures forall k :: p <= k < q ==> s[k] == Comma
    ensures q == |s| || s[q] != Comma
    decreases |s| - p
  {
    if p == |s| || s[p] != Comma then p else SkipCommas(s, p + 1)
  }

  /** First position at or after q that holds a comma, or the end. */
  function TokenEnd(s: string, q: nat): (e: nat)
    requires q <= |s|
    ensures q <= e <= |s|
    ensures forall k :: q <= k < e ==> s[k] != Comma
    ensures e == |s| || s[e] == Comma
    decreases |s| - q
  {
    if q == |s| || s[q] == Comma then q else TokenEnd(s, q + 1)
  }

  datatype Token = Token(value: Option<string>, save: nat)

  /**
   * One strtok_r call resuming at `p`: leading commas are skipped; at the end
   * of the string the result is NULL; otherwise the token runs to the next
   * comma, which is cut, and the scan resumes after it.
   */
  function StrTok(s: string, p: nat): (t: Token)
    requires p <= |s|
    ensures p <= t.save <= |s|
    ensures t.value.None? ==> t.save == |s|
    ensures t.value.Some? ==> p < t.save && t.value.value != [] && Comma !in t.value.value
  {
    var q := SkipCommas(s, p);
    if q == |s| then Token(None, q)
    else
      var e := TokenEnd(s, q);
      Token(Some(s[q..e]), if e < |s| then e + 1 else e)
  }

  /** The tokens successive strtok_r calls return from position p on. */
  function TokensFrom(s: string, p: nat): seq<string>
    requires p <= |s|
    decreases |s| - p
  {
    var t := StrTok(s, p);
    if t.value.None? then [] else [t.value.value] + TokensFrom(s, t.save)
  }

  /** Splitting from a non-comma position: the first field runs to the next comma. */
  lemma {:induction false} SplitFirstField(s: string, q: nat, e: nat)
    requires q <= e <= |s|
    requires forall k :: q <= k < e ==> s[k] != Comma
    requires e == |s| || s[e] == Comma
    ensures e < |s| ==> SplitAtCommas(s[q..]) == [s[q..e]] + SplitAtCommas(s[e + 1..])
    ensures e == |s| ==> SplitAtCommas(s[q..]) == [s[q..]]
    decreases e - q
  {
    if q == e {
      if e < |s| {
        assert s[q..][1..] == s[e + 1..];
      } else {
        assert s[q..] == [];
      }
    } else {
      SplitFirstField(s, q + 1, e);
      var rest := SplitAtCommas(s[q + 1..]);
      assert s[q..][1..] == s[q + 1..];
      assert SplitAtCommas(s[q..]) == [[s[q]] + rest[0]] + rest[1..];
      if e < |s| {
        assert [s[q]] + s[q + 1..e] == s[q..e];
      } else {
        assert [s[q]] + s[q + 1..] == s[q..];
      }
    }
  }

  /** Leading commas only contribute empty fields. */
  lemma {:induction false} SkipCommasFields(s: string, p: nat)
    requires p <= |s|
    ensures NonEmpty(SplitAtCommas(s[p..])) == NonEmpty(SplitAtCommas(s[SkipCommas(s, p)..]))
    decreases |s| - p
  {
    if p < |s| && s[p] == Comma {
      assert s[p..][1..] == s[p + 1..];
      SkipCommasFields(s, p + 1);
    }
  }

  /** One strtok_r call in terms of the scan positions q (token start) and e (token end). */
  lemma TokensStep(s: string, p: nat, q: nat, e: nat)
    requires p <= |s| && q == SkipCommas(s, p) && e == TokenEnd(s, q)
    ensures q == |s| ==> TokensFrom(s, p) == []
    ensures q < |s| && e < |s| ==> TokensFrom(s, p) == [s[q..e]] + TokensFrom(s, e + 1)
    ensures q < |s| && e == |s| ==> TokensFrom(s, p) == [s[q..e]]
  {
    if q < |s| && e == |s| {
      assert StrTok(s, e).value.None?;
    }
  }

  /** The reference fields in terms of the same positions. */
  lemma FieldsStep(s: string, p: nat, q: nat, e: nat)
    requires p <= |s| && q == SkipCommas(s, p) && e == TokenEnd(s, q)
    ensures q == |s| ==> NonEmpty(SplitAtCommas(s[p..])) == []
    ensures q < |s| && e < |s| ==>
      NonEmpty(SplitAtCommas(s[p..])) == [s[q..e]] + NonEmpty(SplitAtCommas(s[e + 1..]))
    ensures q < |s| && e == |s| ==> NonEmpty(SplitAtCommas(s[p..])) == [s[q..e]]
  {
    SkipCommasFields(s, p);
    if q == |s| {
      assert s[q..] == [];
    } else {
      SplitFirstField(s, q, e);
      assert NonEmpty([s[q..e]]) == [s[q..e]];
      if e < |s| {
        NonEmptyAppend([s[q..e]], SplitAtCommas(s[e + 1..]));
      } else {
        assert s[q..] == s[q..e];
      }
    }
  }

  /**
   * strtok_r with "," as delimiter returns exactly the non-empty fields, in
   * order: leading, trailing and repeated commas produce no empty names.
   */
  lemma {:induction false} TokensAreFields(s: string, p: nat)
    requires p <= |s|
    ensures TokensFrom(s, p) == NonEmpty(SplitAtCommas(s[p..]))
    decreases |s| - p
  {
    var q := SkipCommas(s, p);
    var e := TokenEnd(s, q);
    if q < |s| && e < |s| {
      TokensAreFields(s, e + 1);
    }
    StepsAgree(s, p, q, e);
  }

  /** If the tokens and the fields agree after the first token, they agree from p. */
  lemma StepsAgree(s: string, p: nat, q: nat, e: nat)
    requires p <= |s| && q == SkipCommas(s, p) && e == TokenEnd(s, q)
    requires q < |s| && e < |s| ==> TokensFrom(s, e + 1) == NonEmpty(SplitAtCommas(s[e + 1..]))
    ensures TokensFrom(s, p) == NonEmpty(SplitAtCommas(s[p..]))
  {
    TokensStep(s, p, q, e);
    FieldsStep(s, p, q, e);
  }

  /*------------------------------------------------------------------
   * parse_comma_separated_option and free_string_array
   *------------------------------------------------------------------*/

  /** The array entries for a list of strings: one non-NULL pointer each. */
  function Pointers(fs: seq<string>): (ps: seq<Option<string>>)
    ensures |ps| == |fs|
    ensures forall i :: 0 <= i < |fs| ==> ps[i] == Some(fs[i])
  {
    if fs == [] then [] else [Some(fs[0])] + Pointers(fs[1..])
  }

  predicate IsPowerOfTwo(n: nat)
  {
    n == 1 || (n > 1 && n % 2 == 0 && IsPowerOfTwo(n / 2))
  }

  lemma DoublePowerOfTwo(n: nat)
    requires IsPowerOfTwo(n)
    ensures IsPowerOfTwo(2 * n)
  {
    assert (2 * n) / 2 == n;
  }

  /**
   * One store of the parse loop: when the array is full it is reallocated
   * at twice its size (realloc keeps the old entries), then entry n is set.
   */
  method Store(a: array<Option<string>>, n: nat, value: Option<string>) returns (b: array<Option<string>>)
    requires 0 < a.Length && n <= a.Length
    modifies a
    ensures b == a || fresh(b)
    ensures b.Length == if n < a.Length then a.Length else 2 * a.Length
    ensures n < b.Length && b[n] == value
    ensures forall k :: 0 <= k < n ==> b[k] == old(a[k])
  {
    b := a;
    if n == a.Length {
      b := new Option<string>[2 * a.Length](_ => None);
      var k := 0;
      while k < n
        invariant k <= n && unchanged(a)
        invariant forall j :: 0 <= j < k ==> b[j] == a[j]
      {
        b[k] := a[k];
        k := k + 1;
      }
    }
    b[n] := value;
  }

  /** One strtok_r call peels the next token off the remaining ones. */
  lemma TokensFromStep(s: string, p: nat)
    requires p <= |s|
    ensures StrTok(s, p).value.None? ==> TokensFrom(s, p) == []
    ensures StrTok(s, p).value.Some? ==>
      TokensFrom(s, p) == [StrTok(s, p).value.value] + TokensFrom(s, StrTok(s, p).save)
  {
  }

  /**
   * One strtok_r call against the names still to come: NULL exactly when
   * none is left; otherwise the next name, with the rest after it.
   */
  lemma NextToken(s: string, p: nat, fields: seq<string>, n: nat)
    requires p <= |s| && n <= |fields| && TokensFrom(s, p) == fields[n..]
    ensures StrTok(s, p).value.None? <==> n == |fields|
    ensures StrTok(s, p).value.Some? ==>
      StrTok(s, p).value.value == fields[n] && TokensFrom(s, StrTok(s, p).save) == fields[n + 1..]
  {
    TokensFromStep(s, p);
    if StrTok(s, p).value.Some? {
      assert fields[n..][1..] == fields[n + 1..];
    }
  }

  /** An array prefix holding one pointer per name and then NULL is their terminated list. */
  lemma Terminated(r: seq<Option<string>>, fs: seq<string>)
    requires |r| == |fs| + 1 && r[|fs|] == None
    requires forall k :: 0 <= k < |fs| ==> r[k] == Some(fs[k])
    ensures r == Pointers(fs) + [None]
  {
  }

  /**
   * parse_comma_separated_option: calls strtok_r until it returns NULL,
   * storing each result (the final NULL included) and doubling the array
   * whenever it is full. `size` counts the stored names.
   */
  method ParseCommaSeparatedOption(option: string) returns (result: array<Option<string>>, ghost size: nat)
    ensures size < result.Length
    ensures result[..size + 1] == Pointers(Fields(option)) + [None]
    ensures IsPowerOfTwo(result.Length) && result.Length <= 2 * (size + 1)
  {
    var n := 0;
    var save := 0;
    ghost var fields := Fields(option);
    result := new Option<string>[1](_ => None);
    TokensAreFields(option, 0);
    assert option[0..] == option;
    while true
      invariant fresh(result) && IsPowerOfTwo(result.Length)
      invariant n <= result.Length && (result.Length == 1 || result.Length <= 2 * n)
      invariant save <= |option| && n <= |fields|
      invariant forall k :: 0 <= k < n ==> result[k] == Some(fields[k])
      invariant TokensFrom(option, save) == fields[n..]
      decreases |option| - save
    {
      var t;
      result, t := StoreNextToken(option, fields, result, n, save);
      if t.value.None? {
        size := n;
        return;
      }
      save := t.save;
      n := n + 1;
    }
  }

  /**
   * One pass of the parse loop: the next strtok_r result is stored at
   * entry n, the array doubled first when it is full. It is NULL exactly
   * when every name is stored, and then the array holds the terminated list.
   */
  method StoreNextToken(option: string, ghost fields: seq<string>, result: array<Option<string>>, n: nat, save: nat)
    returns (b: array<Option<string>>, t: Token)
    requires save <= |option| && n <= |fields| && TokensFrom(option, save) == fields[n..]
    requires IsPowerOfTwo(result.Length) && n <= result.Length && (result.Length == 1 || result.Length <= 2 * n)
    requires forall k :: 0 <= k < n ==> result[k] == Some(fields[k])
    modifies result
    ensures b == result || fresh(b)
    ensures IsPowerOfTwo(b.Length) && n < b.Length && b.Length <= 2 * (n + 1)
    ensures t == StrTok(option, save)
    ensures forall k :: 0 <= k < n ==> b[k] == Some(fields[k])
    ensures t.value.None? <==> n == |fields|
    ensures t.value.None? ==> b[..n + 1] == Pointers(fields) + [None]
    ensures t.value.Some? ==> b[n] == Some(fields[n]) && TokensFrom(option, t.save) == fields[n + 1..]
  {
    t := StrTok(option, save);
    NextToken(option, save, fields, n);
    if n == result.Length {
      DoublePowerOfTwo(result.Length);
    }
    b := Store(result, n, t.value);
    if t.value.None? {
      Terminated(b[..n + 1], fields);
    }
  }

  /**
   * free_string_array: a NULL array is ignored; otherwise every entry up to
   * the terminating NULL is freed, then the array. Returns how many names
   * were freed.
   */
  method FreeStringArray(names: array?<Option<string>>) returns (freed: nat)
    requires names != null ==> exists j :: 0 <= j < names.Length && names[j].None?
    ensures names == null ==> freed == 0
    ensures names != null ==> freed < names.Length && names[freed].None?
    ensures names != null ==> forall j :: 0 <= j < freed ==> names[j].Some?
  {
    freed := 0;
    if names != null {
      while names[freed].Some?
        invariant freed < names.Length
        invariant forall j :: 0 <= j < freed ==> names[j].Some?
        invariant exists j :: freed <= j < names.Length && names[j].None?
        decreases names.Length - freed
      {
        freed := freed + 1;
      }
    }
  }
}
