/** The keyword that carries the transaction id inside a sealed PDF: the sealer's printer and the
    validator's parser, two halves of one text format living in two services. */
module Keywords {
  import opened Common

  const LABEL: string := "transaction_id"

  /** Python's `s.split(sep=":")`. */
  function Split(s: string): (fields: seq<string>)
    ensures |fields| >= 1
    decreases |s|
  {
    if s == "" then [""]
    else if s[0] == ':' then [""] + Split(s[1..])
    else var rest := Split(s[1..]); [[s[0]] + rest[0]] + rest[1..]
  }

  function Join(fields: seq<string>): string
    requires |fields| >= 1
  {
    if |fields| == 1 then fields[0] else fields[0] + ":" + Join(fields[1..])
  }

  /** `split` is characterised without its own recursion: its fields are colon-free and joining
      them with colons gives the string back ... */
  lemma {:induction false} SplitJoin(s: string)
    ensures forall k :: 0 <= k < |Split(s)| ==> NoColon(Split(s)[k])
    ensures Join(Split(s)) == s
    decreases |s|
  {
    if s != "" {
      SplitJoin(s[1..]);
      var rest := Split(s[1..]);
      assert s == [s[0]] + s[1..];
      if s[0] == ':' {
        assert Split(s)[1..] == rest;
      } else {
        assert Split(s)[1..] == rest[1..];
        if |rest| > 1 {
          assert Join(Split(s)) == [s[0]] + rest[0] + ":" + Join(rest[1..]);
          assert Join(Split(s)) == [s[0]] + Join(rest);
        }
      }
    }
  }

  lemma {:induction false} SplitColonFree(s: string)
    requires NoColon(s)
    ensures Split(s) == [s]
    decreases |s|
  {
    if s != "" {
      SplitColonFree(s[1..]);
      assert s == [s[0]] + s[1..];
    }
  }

  lemma {:induction false} SplitPrefix(a: string, b: string)
    requires NoColon(a)
    ensures Split(a + ":" + b) == [a] + Split(b)
    decreases |a|
  {
    var s := a + ":" + b;
    if a == "" {
      assert s == [':'] + b;
      assert s[1..] == b;
    } else {
      assert s[1..] == a[1..] + ":" + b;
      SplitPrefix(a[1..], b);
      assert [a[0]] + a[1..] == a;
      assert s[0] != ':';
    }
  }

  /** ... and it is the only such list. */
  lemma {:induction false} SplitUnique(s: string, fields: seq<string>)
    requires |fields| >= 1 && (forall k :: 0 <= k < |fields| ==> NoColon(fields[k]))
    requires Join(fields) == s
    ensures fields == Split(s)
    decreases |fields|
  {
    if |fields| == 1 {
      SplitColonFree(fields[0]);
    } else {
      SplitUnique(Join(fields[1..]), fields[1..]);
      SplitPrefix(fields[0], Join(fields[1..]));
      assert fields == [fields[0]] + fields[1..];
    }
  }

  /** What the sealer writes: the document's keywords become this one-element list. */
  function Print(transactionId: string): string { LABEL + ":" + transactionId }

  /** Outcome of the search: an id, Python's None, or the IndexError of `entry[1]` on a keyword
      without a colon, which `Validate` catches. */
  datatype Lookup = Found(id: string) | Absent | Raised

  predicate Labelled(keyword: string) { Split(keyword)[0] == LABEL }

  function SecondField(keyword: string): Lookup {
    var entry := Split(keyword); if |entry| >= 2 then Found(entry[1]) else Raised
  }

  function ParseKeywords(keywords: seq<string>): Lookup {
    if keywords == [] then Absent
    else if Labelled(keywords[0]) then SecondField(keywords[0])
    else ParseKeywords(keywords[1..])
  }

  /** The validator's loop with its early return. */
  method GetTransactionIdFromKeywords(keywords: seq<string>) returns (r: Lookup)
    ensures r == ParseKeywords(keywords)
    ensures r.Absent? <==> forall k :: 0 <= k < |keywords| ==> !Labelled(keywords[k])
  {
    var i := 0;
    while i < |keywords|
      invariant 0 <= i <= |keywords|
      invariant forall k :: 0 <= k < i ==> !Labelled(keywords[k])
      invariant ParseKeywords(keywords[i..]) == ParseKeywords(keywords)
    {
      assert keywords[i..][1..] == keywords[i + 1..];
      var entry := Split(keywords[i]);
      if entry[0] == LABEL {
        assert Labelled(keywords[i]);
        if |entry| >= 2 { return Found(entry[1]); } else { return Raised; }
      }
      i := i + 1;
    }
    return Absent;
  }

  /** The parser returns the second field of the first labelled keyword, over all lists. */
  lemma {:induction false} ParseFirstLabelled(keywords: seq<string>, k: nat)
    requires k < |keywords| && Labelled(keywords[k])
    requires forall i :: 0 <= i < k ==> !Labelled(keywords[i])
    ensures ParseKeywords(keywords) == SecondField(keywords[k])
    ensures ParseKeywords(keywords).Raised? <==> keywords[k] == LABEL
    decreases k
  {
    SplitJoin(keywords[k]);
    if Split(keywords[k]) == [LABEL] {
      assert keywords[k] == LABEL;
    } else if keywords[k] == LABEL {
      SplitColonFree(LABEL);
    }
    if k > 0 {
      ParseFirstLabelled(keywords[1..], k - 1);
    }
  }

  /** The round trip holds for exactly the ids without a colon. */
  lemma PrintParse(transactionId: string)
    ensures ParseKeywords([Print(transactionId)]) == Found(Split(transactionId)[0])
    ensures ParseKeywords([Print(transactionId)]) == Found(transactionId) <==> NoColon(transactionId)
  {
    SplitPrefix(LABEL, transactionId);
    SplitJoin(transactionId);
    if NoColon(transactionId) { SplitColonFree(transactionId); }
    if Split(transactionId)[0] == transactionId {
      assert NoColon(Split(transactionId)[0]);
    }
  }

  // ---------- transaction ids ----------

  predicate HexDigit(c: char) { '0' <= c <= '9' || 'a' <= c <= 'f' }

  /** The text `uuid.NewString` produces: section 4 of RFC 9562, version 4, lower case. */
  predicate IsUuid(s: string) {
    |s| == 36
    && (forall i :: 0 <= i < 36 ==> if i in {8, 13, 18, 23} then s[i] == '-' else HexDigit(s[i]))
    && s[14] == '4' && s[19] in {'8', '9', 'a', 'b'}
  }

  lemma UuidHasNoColon(s: string)
    requires IsUuid(s)
    ensures NoColon(s) && s != ""
    ensures ParseKeywords([Print(s)]) == Found(s)
  {
    PrintParse(s);
  }
}
