/** What follows a message does not change how it is read; so no message that has been cut short is accepted
    (marshal.c). */
module Truncation {
  import opened CBytes
  import opened Wire
  import opened Marshal

  /** What a reader returns if `t` follows what it has been given. */
  function Extended<T>(r: Option<(T, seq<byte>)>, t: seq<byte>): Option<(T, seq<byte>)> {
    if r.None? then None else Some((r.value.0, r.value.1 + t))
  }

  lemma DataExtended(b: seq<byte>, n: nat, t: seq<byte>)
    ensures GetData(b, n).Some? ==> GetData(b + t, n) == Extended(GetData(b, n), t)
  {
    if n <= |b| {
      assert (b + t)[..n] == b[..n] && (b + t)[n..] == b[n..] + t;
    }
  }

  /** A string without a terminator is not accepted. */
  lemma Unterminated(word: nat, b: seq<byte>)
    requires word != 0
    ensures GetString(word, b) == None <==> 0 !in b
  {
    var s := UpToNul(b);
    if |s| < |b| {
      assert b[|s|] in b;
    }
  }

  lemma StringExtended(word: nat, b: seq<byte>, t: seq<byte>)
    ensures GetString(word, b).Some? ==> GetString(word, b + t) == Extended(GetString(word, b), t)
  {
    var s := UpToNul(b);
    if word != 0 && |s| < |b| {
      var rest := b[|s| + 1..];
      assert b == s + [0] + rest;
      assert b + t == s + [0] + (rest + t);
      UpToNulOf(s, rest + t);
    }
  }

  lemma WordsExtended(b: seq<byte>, widths: seq<nat>, t: seq<byte>)
    ensures GetWords(b, widths).Some? ==> GetWords(b + t, widths) == Extended(GetWords(b, widths), t)
  {
    if Size(widths) <= |b| {
      assert (b + t)[..Size(widths)] == b[..Size(widths)] && (b + t)[Size(widths)..] == b[Size(widths)..] + t;
    }
  }

  lemma {:induction false} StringsExtended(words: seq<nat>, b: seq<byte>, t: seq<byte>)
    ensures GetStrings(words, b).Some? ==> GetStrings(words, b + t) == Extended(GetStrings(words, b), t)
    decreases |words|
  {
    if words != [] && GetStrings(words, b).Some? {
      StringExtended(words[0], b, t);
      StringsExtended(words[1..], GetString(words[0], b).value.1, t);
    }
  }

  lemma {:induction false} RowsExtended(b: seq<byte>, widths: seq<nat>, n: nat, t: seq<byte>)
    ensures GetRows(b, widths, n).Some? ==> GetRows(b + t, widths, n) == Extended(GetRows(b, widths, n), t)
    decreases n
  {
    if n > 0 && GetRows(b, widths, n).Some? {
      WordsExtended(b, widths, t);
      RowsExtended(GetWords(b, widths).value.1, widths, n - 1, t);
    }
  }

  lemma ItemExtended(w: seq<nat>, b: seq<byte>, t: seq<byte>)
    requires |w| == 6
    ensures GetItem(w, b).Some? ==> GetItem(w, b + t) == Extended(GetItem(w, b), t)
  {
    DataExtended(b, w[2], t);
    if GetItem(w, b).Some? {
      var b1 := GetData(b, w[2]).value.1;
      StringExtended(w[4], b1, t);
      StringExtended(w[5], GetString(w[4], b1).value.1, t);
    }
  }

  lemma {:induction false} ItemsExtended(ws: seq<seq<nat>>, b: seq<byte>, t: seq<byte>)
    requires forall k :: 0 <= k < |ws| ==> |ws[k]| == 6
    ensures GetItems(ws, b).Some? ==> GetItems(ws, b + t) == Extended(GetItems(ws, b), t)
    decreases |ws|
  {
    if ws != [] && GetItems(ws, b).Some? {
      ItemExtended(ws[0], b, t);
      ItemsExtended(ws[1..], GetItem(ws[0], b).value.1, t);
    }
  }

  lemma ValuesExtended(n: nat, b: seq<byte>, t: seq<byte>)
    ensures GetValues(n, b).Some? ==> GetValues(n, b + t) == Extended(GetValues(n, b), t)
  {
    if GetValues(n, b).Some? {
      RowsExtended(b, ITEM_WIDTHS, n, t);
      var (ws, b1) := GetRows(b, ITEM_WIDTHS, n).value;
      ItemsExtended(ws, b1, t);
    }
  }

  lemma RequestExtended(b: seq<byte>, t: seq<byte>)
    ensures GetRequest(b).Some? ==> GetRequest(b + t) == Extended(GetRequest(b), t)
  {
    if GetRequest(b).Some? {
      WordsExtended(b, REQUEST_WIDTHS, t);
      var (w, b1) := GetWords(b, REQUEST_WIDTHS).value;
      StringsExtended([w[2], w[3]], b1, t);
      var (_, b2) := GetStrings([w[2], w[3]], b1).value;
      ValuesExtended(w[7], b2, t);
    }
  }

  /** No proper beginning of a marshalled request is accepted. */
  lemma TruncatedRequest(r: Request, b: seq<byte>)
    requires r.Representable() && b < r.Bytes()
    ensures GetRequest(b) == None
  {
    var t := Missing(b, r.Bytes());
    RequestRoundTrip(r, []);
    RequestExtended(b, t);
  }

  lemma Missing(b: seq<byte>, whole: seq<byte>) returns (t: seq<byte>)
    requires b < whole
    ensures b + t == whole + [] && t != []
  {
    t := whole[|b|..];
  }

  lemma SubscriptionExtended(b: seq<byte>, t: seq<byte>)
    ensures GetSubscription(b).Some? ==> GetSubscription(b + t) == Extended(GetSubscription(b), t)
  {
    if GetSubscription(b).Some? {
      WordsExtended(b, SUBSCRIPTION_WIDTHS, t);
      var (w, b1) := GetWords(b, SUBSCRIPTION_WIDTHS).value;
      StringsExtended([w[4], w[7], w[10]], b1, t);
    }
  }

  lemma TruncatedSubscription(r: Subscription, b: seq<byte>)
    requires b < r.Bytes()
    ensures GetSubscription(b) == None
  {
    var t := Missing(b, r.Bytes());
    SubscriptionRoundTrip(r, []);
    SubscriptionExtended(b, t);
  }

  lemma {:induction false} DefinitionStringsExtended(ws: seq<seq<nat>>, b: seq<byte>, t: seq<byte>)
    requires forall k :: 0 <= k < |ws| ==> |ws[k]| == 9
    ensures GetDefinitionStrings(ws, b).Some? ==>
      GetDefinitionStrings(ws, b + t) == Extended(GetDefinitionStrings(ws, b), t)
    decreases |ws|
  {
    if ws != [] && GetDefinitionStrings(ws, b).Some? {
      StringsExtended([ws[0][7], ws[0][8]], b, t);
      DefinitionStringsExtended(ws[1..], GetDefinition(ws[0], b).value.1, t);
    }
  }

  lemma DefinitionsExtended(b: seq<byte>, n: nat, t: seq<byte>)
    ensures GetDefinitions(b, n).Some? ==> GetDefinitions(b + t, n) == Extended(GetDefinitions(b, n), t)
  {
    if GetDefinitions(b, n).Some? {
      RowsExtended(b, DEFINITION_WIDTHS, n, t);
      var (ws, b1) := GetRows(b, DEFINITION_WIDTHS, n).value;
      DefinitionStringsExtended(ws, b1, t);
    }
  }

  lemma TruncatedDefinitions(ds: seq<Definition>, b: seq<byte>)
    requires b < DefinitionBytes(ds)
    ensures GetDefinitions(b, |ds|) == None
  {
    var t := Missing(b, DefinitionBytes(ds));
    DefinitionsRoundTrip(ds, []);
    DefinitionsExtended(b, |ds|, t);
  }
}
