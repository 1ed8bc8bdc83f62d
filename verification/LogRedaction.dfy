/** `sanitize_for_log`: nested values are bounded in depth and width, and what lies under sensitive keys is hidden. */
module LogRedaction {
  import opened Wrappers
  import opened Numerals
  import opened LogEscaping

  /**
   A value to be logged. A dict is its entries in insertion order, each with `str(key)`; distinct keys may have
   the same text. Lists, tuples and sets are their items in iteration order. An object of any other type is
   what `str` makes of it, or nothing if `str` raises.
   */
  datatype Value =
    | Null
    | Bool(b: bool)
    | Number(n: real)
    | Text(s: string)
    | Bytes(length: nat)
    | Dict(entries: seq<Entry>)
    | Items(items: seq<Value>)
    | Object(str: Option<string>, typeName: string)

  datatype Entry = Entry(key: string, value: Value)

  /** `excluded(k)` stands for `k.lower() in EXCLUDED_FIELDS`, `sensitive(k)` for a match of SENSITIVE_PATTERN in `k`. */
  datatype Config = Config(
    excluded: string -> bool,
    sensitive: string -> bool,
    mask: string,
    maxString: int,
    maxKeys: int,
    maxItems: int)

  const MAX_DEPTH := 5

  const TRUNCATED := "__truncated__"

  /** `result[key] = value` on a dict that keeps insertion order. */
  function Put(d: seq<Entry>, key: string, value: Value): seq<Entry> {
    if d == [] then [Entry(key, value)]
    else if d[0].key == key then [Entry(key, value)] + d[1..]
    else [d[0]] + Put(d[1..], key, value)
  }

  /** How many of `n` keys the loop reaches before it breaks. */
  function KeysTaken(n: nat, maxKeys: int): (k: nat)
    ensures k <= n
  {
    if maxKeys < 0 then 0 else if n < maxKeys then n else maxKeys
  }

  // ---------------------------------------------------------------- specification

  function Sanitize(cfg: Config, v: Value, depth: nat): Value
    requires depth <= MAX_DEPTH + 1
    decreases MAX_DEPTH + 1 - depth, 2, 0
  {
    if depth > MAX_DEPTH then Text("<max depth exceeded>")
    else
      match v
      case Null => v
      case Bool(_) => v
      case Number(_) => v
      case Text(s) => Text(SanitizeString(s, cfg.maxString))
      case Bytes(n) => Text("<bytes: " + Decimal(n) + " bytes>")
      case Dict(entries) => Dict(SanitizeDict(cfg, entries, depth))
      case Items(items) => Items(SanitizeItems(cfg, items, depth))
      case Object(Some(s), _) => Text(SanitizeString(s, cfg.maxString))
      case Object(None, name) => Text("<" + name + ": unserializable>")
  }

  function SanitizeDict(cfg: Config, entries: seq<Entry>, depth: nat): seq<Entry>
    requires depth <= MAX_DEPTH
    decreases MAX_DEPTH + 1 - depth, 1, 0
  {
    var shown := FirstEntries(cfg, entries, KeysTaken(|entries|, cfg.maxKeys), depth);
    if |entries| > cfg.maxKeys then Put(shown, TRUNCATED, Text(Decimal(|entries| - cfg.maxKeys) + " more keys"))
    else shown
  }

  /** What the first `n` entries leave in the result. */
  function FirstEntries(cfg: Config, entries: seq<Entry>, n: nat, depth: nat): seq<Entry>
    requires depth <= MAX_DEPTH && n <= |entries|
    decreases MAX_DEPTH + 1 - depth, 0, n
  {
    if n == 0 then []
    else
      var before, e := FirstEntries(cfg, entries, n - 1, depth), entries[n - 1];
      if cfg.excluded(e.key) then before
      else Put(before, e.key, if cfg.sensitive(e.key) then Text(cfg.mask) else Sanitize(cfg, e.value, depth + 1))
  }

  function SanitizeItems(cfg: Config, items: seq<Value>, depth: nat): seq<Value>
    requires depth <= MAX_DEPTH
    decreases MAX_DEPTH + 1 - depth, 1, 0
  {
    FirstItems(cfg, items, SliceIndex(|items|, cfg.maxItems), depth)
    + if |items| > cfg.maxItems then [Text("...and " + Decimal(|items| - cfg.maxItems) + " more items")] else []
  }

  function FirstItems(cfg: Config, items: seq<Value>, n: nat, depth: nat): (r: seq<Value>)
    requires depth <= MAX_DEPTH && n <= |items|
    ensures |r| == n
    decreases MAX_DEPTH + 1 - depth, 0, n
  {
    if n == 0 then [] else FirstItems(cfg, items, n - 1, depth) + [Sanitize(cfg, items[n - 1], depth + 1)]
  }

  // ---------------------------------------------------------------- the code

  method SanitizeValue(cfg: Config, v: Value, depth: nat) returns (r: Value)
    requires depth <= MAX_DEPTH + 1
    ensures r == Sanitize(cfg, v, depth)
    decreases MAX_DEPTH + 1 - depth, 1
  {
    if depth > MAX_DEPTH {
      return Text("<max depth exceeded>");
    }
    match v
    case Null => return v;
    case Bool(_) => return v;
    case Number(_) => return v;
    case Text(s) => return Text(SanitizeString(s, cfg.maxString));
    case Bytes(n) => return Text("<bytes: " + Decimal(n) + " bytes>");
    case Dict(entries) =>
      var d := SanitizeDictForLog(cfg, entries, depth);
      return Dict(d);
    case Items(items) =>
      var list := SanitizeIterableForLog(cfg, items, depth);
      return Items(list);
    case Object(Some(s), _) => return Text(SanitizeString(s, cfg.maxString));
    case Object(None, name) => return Text("<" + name + ": unserializable>");
  }

  method SanitizeDictForLog(cfg: Config, entries: seq<Entry>, depth: nat) returns (result: seq<Entry>)
    requires depth <= MAX_DEPTH
    ensures result == SanitizeDict(cfg, entries, depth)
    decreases MAX_DEPTH + 1 - depth, 0
  {
    result := [];
    var truncated := |entries| > cfg.maxKeys;
    var i := 0;
    while i < |entries|
      invariant 0 <= i <= KeysTaken(|entries|, cfg.maxKeys)
      invariant result == FirstEntries(cfg, entries, i, depth)
    {
      if i >= cfg.maxKeys {
        break;
      }
      var e := entries[i];
      i := i + 1;
      if cfg.excluded(e.key) {
        continue;
      }
      if cfg.sensitive(e.key) {
        result := Put(result, e.key, Text(cfg.mask));
      } else {
        var value := SanitizeValue(cfg, e.value, depth + 1);
        result := Put(result, e.key, value);
      }
    }
    if truncated {
      result := Put(result, TRUNCATED, Text(Decimal(|entries| - cfg.maxKeys) + " more keys"));
    }
  }

  method SanitizeIterableForLog(cfg: Config, items: seq<Value>, depth: nat) returns (result: seq<Value>)
    requires depth <= MAX_DEPTH
    ensures result == SanitizeItems(cfg, items, depth)
    decreases MAX_DEPTH + 1 - depth, 0
  {
    var truncated := |items| > cfg.maxItems;
    result := [];
    for i := 0 to SliceIndex(|items|, cfg.maxItems)
      invariant result == FirstItems(cfg, items, i, depth)
    {
      var item := SanitizeValue(cfg, items[i], depth + 1);
      result := result + [item];
    }
    if truncated {
      result := result + [Text("...and " + Decimal(|items| - cfg.maxItems) + " more items")];
    }
  }

  // ---------------------------------------------------------------- non-interference

  predicate Hidden(cfg: Config, key: string) {
    cfg.excluded(key) || cfg.sensitive(key)
  }

  /**
   `a` and `b` have the same shape and the same keys, and differ only in what no log may show: values under hidden
   keys, values past the limits, and anything too deep, at any level and inside lists too.
   */
  ghost predicate Alike(cfg: Config, a: Value, b: Value, depth: nat)
    decreases a
  {
    if depth > MAX_DEPTH then true
    else if a.Dict? && b.Dict? then
      && |a.entries| == |b.entries|
      && forall i :: 0 <= i < |a.entries| ==>
           && a.entries[i].key == b.entries[i].key
           && (i >= cfg.maxKeys || Hidden(cfg, a.entries[i].key)
               || Alike(cfg, a.entries[i].value, b.entries[i].value, depth + 1))
    else if a.Items? && b.Items? then
      && |a.items| == |b.items|
      && forall i :: 0 <= i < SliceIndex(|a.items|, cfg.maxItems) ==> Alike(cfg, a.items[i], b.items[i], depth + 1)
    else a == b
  }

  /** Secrets do not reach the log: values that differ only in hidden places are logged identically. */
  lemma {:induction false} SecretsDoNotInterfere(cfg: Config, a: Value, b: Value, depth: nat)
    requires depth <= MAX_DEPTH + 1 && Alike(cfg, a, b, depth)
    ensures Sanitize(cfg, a, depth) == Sanitize(cfg, b, depth)
    decreases MAX_DEPTH + 1 - depth, 1, 0
  {
    if depth <= MAX_DEPTH {
      if a.Dict? && b.Dict? {
        AlikeEntries(cfg, a, b, KeysTaken(|a.entries|, cfg.maxKeys), depth);
      } else if a.Items? && b.Items? {
        AlikeItems(cfg, a, b, SliceIndex(|a.items|, cfg.maxItems), depth);
      }
    }
  }

  lemma {:induction false} AlikeEntries(cfg: Config, a: Value, b: Value, n: nat, depth: nat)
    requires depth <= MAX_DEPTH && Alike(cfg, a, b, depth) && a.Dict? && b.Dict?
    requires n <= KeysTaken(|a.entries|, cfg.maxKeys)
    ensures FirstEntries(cfg, a.entries, n, depth) == FirstEntries(cfg, b.entries, n, depth)
    decreases MAX_DEPTH + 1 - depth, 0, n
  {
    if n != 0 {
      AlikeEntries(cfg, a, b, n - 1, depth);
      if !Hidden(cfg, a.entries[n - 1].key) {
        SecretsDoNotInterfere(cfg, a.entries[n - 1].value, b.entries[n - 1].value, depth + 1);
      }
    }
  }

  lemma {:induction false} AlikeItems(cfg: Config, a: Value, b: Value, n: nat, depth: nat)
    requires depth <= MAX_DEPTH && Alike(cfg, a, b, depth) && a.Items? && b.Items?
    requires n <= SliceIndex(|a.items|, cfg.maxItems)
    ensures FirstItems(cfg, a.items, n, depth) == FirstItems(cfg, b.items, n, depth)
    decreases MAX_DEPTH + 1 - depth, 0, n
  {
    if n != 0 {
      AlikeItems(cfg, a, b, n - 1, depth);
      SecretsDoNotInterfere(cfg, a.items[n - 1], b.items[n - 1], depth + 1);
    }
  }

  // ---------------------------------------------------------------- what the log may hold

  /** `"__truncated__": "<k> more keys"` as the loop over a dict adds it. */
  function TruncationNote(k: nat): Entry {
    Entry(TRUNCATED, Text(Decimal(k) + " more keys"))
  }

  /** No dict of the log has an excluded key, and what stands under a sensitive key is the mask; only a truncation note is exempt. */
  ghost predicate Redacted(cfg: Config, v: Value)
    decreases v
  {
    match v
    case Dict(entries) => forall i :: 0 <= i < |entries| ==> EntryRedacted(cfg, entries[i])
    case Items(items) => forall i :: 0 <= i < |items| ==> Redacted(cfg, items[i])
    case _ => true
  }

  ghost predicate EntryRedacted(cfg: Config, e: Entry)
    decreases e
  {
    && Redacted(cfg, e.value)
    && ((exists k :: e == TruncationNote(k))
        || (!cfg.excluded(e.key) && (cfg.sensitive(e.key) ==> e.value == Text(cfg.mask))))
  }

  /** At most `levels` containers deep, and no container wider than the limits allow. */
  ghost predicate Bounded(cfg: Config, v: Value, levels: nat)
    decreases v
  {
    match v
    case Dict(entries) =>
      && 0 < levels && |entries| <= cfg.maxKeys + 1
      && forall i :: 0 <= i < |entries| ==> Bounded(cfg, entries[i].value, levels - 1)
    case Items(items) =>
      && 0 < levels && |items| <= cfg.maxItems + 1
      && forall i :: 0 <= i < |items| ==> Bounded(cfg, items[i], levels - 1)
    case _ => true
  }

  lemma {:induction false} PutKeeps(d: seq<Entry>, key: string, value: Value)
    ensures |d| <= |Put(d, key, value)| <= |d| + 1
    ensures forall e :: e in Put(d, key, value) ==> e == Entry(key, value) || e in d
    ensures 0 < |Put(d, key, value)|
  {
    if d != [] && d[0].key != key {
      PutKeeps(d[1..], key, value);
    }
  }

  lemma {:induction false} LogIsRedacted(cfg: Config, v: Value, depth: nat)
    requires depth <= MAX_DEPTH + 1
    ensures Redacted(cfg, Sanitize(cfg, v, depth))
    decreases MAX_DEPTH + 1 - depth, 1, 0
  {
    if depth <= MAX_DEPTH {
      match v
      case Dict(entries) =>
        var n := KeysTaken(|entries|, cfg.maxKeys);
        EntriesAreRedacted(cfg, entries, n, depth);
        PutKeeps(FirstEntries(cfg, entries, n, depth), TRUNCATED,
                 Text(Decimal(if |entries| > cfg.maxKeys then |entries| - cfg.maxKeys else 0) + " more keys"));
        var out := SanitizeDict(cfg, entries, depth);
        if |entries| > cfg.maxKeys {
          var note := TruncationNote(|entries| - cfg.maxKeys);
          assert EntryRedacted(cfg, note);
        }
        forall i | 0 <= i < |out| ensures EntryRedacted(cfg, out[i]) { assert out[i] in out; }
      case Items(items) =>
        var n := SliceIndex(|items|, cfg.maxItems);
        ItemsAreRedacted(cfg, items, n, depth);
        var shown, out := FirstItems(cfg, items, n, depth), SanitizeItems(cfg, items, depth);
        forall i | 0 <= i < |out| ensures Redacted(cfg, out[i]) {
          if i < n { assert out[i] == shown[i]; } else { assert out[i].Text?; }
        }
      case _ =>
    }
  }

  lemma {:induction false} EntriesAreRedacted(cfg: Config, entries: seq<Entry>, n: nat, depth: nat)
    requires depth <= MAX_DEPTH && n <= |entries|
    ensures forall e :: e in FirstEntries(cfg, entries, n, depth) ==> EntryRedacted(cfg, e)
    decreases MAX_DEPTH + 1 - depth, 0, n
  {
    if n != 0 {
      EntriesAreRedacted(cfg, entries, n - 1, depth);
      var e := entries[n - 1];
      var shown := if cfg.sensitive(e.key) then Text(cfg.mask) else Sanitize(cfg, e.value, depth + 1);
      LogIsRedacted(cfg, e.value, depth + 1);
      PutKeeps(FirstEntries(cfg, entries, n - 1, depth), e.key, shown);
    }
  }

  lemma {:induction false} ItemsAreRedacted(cfg: Config, items: seq<Value>, n: nat, depth: nat)
    requires depth <= MAX_DEPTH && n <= |items|
    ensures forall i :: 0 <= i < n ==> Redacted(cfg, FirstItems(cfg, items, n, depth)[i])
    decreases MAX_DEPTH + 1 - depth, 0, n
  {
    if n != 0 {
      ItemsAreRedacted(cfg, items, n - 1, depth);
      LogIsRedacted(cfg, items[n - 1], depth + 1);
    }
  }

  /** With limits that are not negative, a log entry is at most six containers deep and within both widths. */
  lemma {:induction false} LogIsBounded(cfg: Config, v: Value, depth: nat)
    requires depth <= MAX_DEPTH + 1 && 0 <= cfg.maxKeys && 0 <= cfg.maxItems
    ensures Bounded(cfg, Sanitize(cfg, v, depth), MAX_DEPTH + 1 - depth)
    decreases MAX_DEPTH + 1 - depth, 1, 0
  {
    if depth <= MAX_DEPTH {
      match v
      case Dict(entries) =>
        DictWidthIff(cfg, entries, depth);
        EntriesAreBounded(cfg, entries, KeysTaken(|entries|, cfg.maxKeys), depth);
        var shown := FirstEntries(cfg, entries, KeysTaken(|entries|, cfg.maxKeys), depth);
        PutKeeps(shown, TRUNCATED, Text(Decimal(if |entries| > cfg.maxKeys then |entries| - cfg.maxKeys else 0) + " more keys"));
        var out := SanitizeDict(cfg, entries, depth);
        forall i | 0 <= i < |out| ensures Bounded(cfg, out[i].value, MAX_DEPTH - depth) { assert out[i] in out; }
      case Items(items) =>
        var n := SliceIndex(|items|, cfg.maxItems);
        ItemsAreBounded(cfg, items, n, depth);
        var shown, out := FirstItems(cfg, items, n, depth), SanitizeItems(cfg, items, depth);
        forall i | 0 <= i < |out| ensures Bounded(cfg, out[i], MAX_DEPTH - depth) {
          if i < n { assert out[i] == shown[i]; } else { assert out[i].Text?; }
        }
      case _ =>
    }
  }

  lemma {:induction false} EntriesAreBounded(cfg: Config, entries: seq<Entry>, n: nat, depth: nat)
    requires depth <= MAX_DEPTH && n <= |entries| && 0 <= cfg.maxKeys && 0 <= cfg.maxItems
    ensures forall e :: e in FirstEntries(cfg, entries, n, depth) ==> Bounded(cfg, e.value, MAX_DEPTH - depth)
    decreases MAX_DEPTH + 1 - depth, 0, n
  {
    if n != 0 {
      EntriesAreBounded(cfg, entries, n - 1, depth);
      var e := entries[n - 1];
      var shown := if cfg.sensitive(e.key) then Text(cfg.mask) else Sanitize(cfg, e.value, depth + 1);
      LogIsBounded(cfg, e.value, depth + 1);
      PutKeeps(FirstEntries(cfg, entries, n - 1, depth), e.key, shown);
    }
  }

  lemma {:induction false} ItemsAreBounded(cfg: Config, items: seq<Value>, n: nat, depth: nat)
    requires depth <= MAX_DEPTH && n <= |items| && 0 <= cfg.maxKeys && 0 <= cfg.maxItems
    ensures forall i :: 0 <= i < n ==> Bounded(cfg, FirstItems(cfg, items, n, depth)[i], MAX_DEPTH - depth)
    decreases MAX_DEPTH + 1 - depth, 0, n
  {
    if n != 0 {
      ItemsAreBounded(cfg, items, n - 1, depth);
      LogIsBounded(cfg, items[n - 1], depth + 1);
    }
  }

  lemma {:induction false} FirstEntriesWidth(cfg: Config, entries: seq<Entry>, n: nat, depth: nat)
    requires depth <= MAX_DEPTH && n <= |entries|
    ensures |FirstEntries(cfg, entries, n, depth)| <= n
  {
    if n != 0 {
      FirstEntriesWidth(cfg, entries, n - 1, depth);
      var e := entries[n - 1];
      PutKeeps(FirstEntries(cfg, entries, n - 1, depth), e.key,
               if cfg.sensitive(e.key) then Text(cfg.mask) else Sanitize(cfg, e.value, depth + 1));
    }
  }

  /** A dict keeps to its width, note included, exactly when the limit is not negative; a negative one still logs the note. */
  lemma DictWidthIff(cfg: Config, entries: seq<Entry>, depth: nat)
    requires depth <= MAX_DEPTH
    ensures |SanitizeDict(cfg, entries, depth)| <= cfg.maxKeys + 1 <==> 0 <= cfg.maxKeys
  {
    var n := KeysTaken(|entries|, cfg.maxKeys);
    FirstEntriesWidth(cfg, entries, n, depth);
    if |entries| > cfg.maxKeys {
      PutKeeps(FirstEntries(cfg, entries, n, depth), TRUNCATED, Text(Decimal(|entries| - cfg.maxKeys) + " more keys"));
    }
  }

  /** The same for lists, where a negative limit is a slice bound counted from the end. */
  lemma ItemsWidthIff(cfg: Config, items: seq<Value>, depth: nat)
    requires depth <= MAX_DEPTH
    ensures |SanitizeItems(cfg, items, depth)| <= cfg.maxItems + 1 <==> 0 <= cfg.maxItems
  {
  }

  // ---------------------------------------------------------------- control characters in nested values

  /** No text and no dict key of the log has a character below 32. */
  ghost predicate CleanOfC0(v: Value)
    decreases v
  {
    match v
    case Text(s) => FreeOfC0(s)
    case Dict(entries) => forall i :: 0 <= i < |entries| ==> FreeOfC0(entries[i].key) && CleanOfC0(entries[i].value)
    case Items(items) => forall i :: 0 <= i < |items| ==> CleanOfC0(items[i])
    case _ => true
  }

  /** Entry `i` is the last of the first `n` with its key: later ones overwrite it. */
  ghost predicate LastOfKey(entries: seq<Entry>, i: nat, n: nat) {
    i < n <= |entries| && forall j :: i < j < n ==> entries[j].key != entries[i].key
  }

  /** What the value of entry `i` becomes reaches the log; the truncation note overwrites one key. */
  ghost predicate ReachesLog(cfg: Config, entries: seq<Entry>, i: nat) {
    && LastOfKey(entries, i, KeysTaken(|entries|, cfg.maxKeys)) && !cfg.excluded(entries[i].key)
    && !(|entries| > cfg.maxKeys && entries[i].key == TRUNCATED)
  }

  /** What is copied to the log unescaped has no character below 32: the shown keys, the mask, the names of unserializable types. */
  ghost predicate CopiesNoC0(cfg: Config, v: Value, depth: nat)
    decreases v
  {
    if depth > MAX_DEPTH then true
    else
      match v
      case Dict(entries) =>
        && (forall i :: 0 <= i < KeysTaken(|entries|, cfg.maxKeys) && !cfg.excluded(entries[i].key) ==> FreeOfC0(entries[i].key))
        && (forall i :: 0 <= i < |entries| && ReachesLog(cfg, entries, i) ==>
              if cfg.sensitive(entries[i].key) then FreeOfC0(cfg.mask) else CopiesNoC0(cfg, entries[i].value, depth + 1))
      case Items(items) =>
        forall i :: 0 <= i < SliceIndex(|items|, cfg.maxItems) ==> CopiesNoC0(cfg, items[i], depth + 1)
      case Object(None, name) => FreeOfC0(name)
      case _ => true
  }

  function ShownValue(cfg: Config, e: Entry, depth: nat): Value
    requires depth <= MAX_DEPTH
  {
    if cfg.sensitive(e.key) then Text(cfg.mask) else Sanitize(cfg, e.value, depth + 1)
  }

  ghost predicate DistinctKeys(d: seq<Entry>) {
    d == [] || ((forall e :: e in d[1..] ==> e.key != d[0].key) && DistinctKeys(d[1..]))
  }

  /** Assigning to a dict key replaces its entry, and leaves the others. */
  lemma {:induction false} PutReplaces(d: seq<Entry>, key: string, value: Value)
    requires DistinctKeys(d)
    ensures forall e :: e in Put(d, key, value) <==> e == Entry(key, value) || (e in d && e.key != key)
    ensures DistinctKeys(Put(d, key, value))
  {
    if d == [] {
      assert Put(d, key, value)[1..] == [];
    } else {
      var head, rest := d[0], d[1..];
      assert d == [head] + rest;
      if head.key == key {
        assert Put(d, key, value) == [Entry(key, value)] + rest;
        assert ([Entry(key, value)] + rest)[1..] == rest;
      } else {
        PutReplaces(rest, key, value);
        var longer := Put(rest, key, value);
        assert Put(d, key, value) == [head] + longer;
        hide Put;
        assert ([head] + longer)[1..] == longer;
        assert forall e :: e in longer ==> e.key != head.key;
      }
    }
  }

  /** `e` is what entry `i` becomes, and no later one of the first `n` overwrites it. */
  ghost predicate WinsAs(cfg: Config, entries: seq<Entry>, i: nat, n: nat, depth: nat, e: Entry)
    requires depth <= MAX_DEPTH
  {
    LastOfKey(entries, i, n) && !cfg.excluded(entries[i].key) && e == Entry(entries[i].key, ShownValue(cfg, entries[i], depth))
  }

  /** The result of the loop holds, under each shown key, what its last entry becomes. */
  lemma {:induction false} LastEntryWins(cfg: Config, entries: seq<Entry>, n: nat, depth: nat)
    requires depth <= MAX_DEPTH && n <= |entries|
    ensures DistinctKeys(FirstEntries(cfg, entries, n, depth))
    ensures forall e :: e in FirstEntries(cfg, entries, n, depth) <==> exists i: nat :: WinsAs(cfg, entries, i, n, depth, e)
    decreases n
  {
    if n != 0 {
      hide Sanitize, ShownValue, FirstEntries, Put, DistinctKeys, WinsAs;
      var m := n - 1;
      LastEntryWins(cfg, entries, m, depth);
      var before, last := FirstEntries(cfg, entries, m, depth), entries[m];
      FirstEntriesStep(cfg, entries, n, depth);
      PutReplaces(before, last.key, ShownValue(cfg, last, depth));
      forall e
        ensures e in FirstEntries(cfg, entries, n, depth) <==> exists i: nat :: WinsAs(cfg, entries, i, n, depth, e)
      {
        WinnersStep(cfg, entries, m, n, depth, e);
      }
    }
  }

  lemma FirstEntriesStep(cfg: Config, entries: seq<Entry>, n: nat, depth: nat)
    requires depth <= MAX_DEPTH && 0 < n <= |entries|
    ensures var before, last := FirstEntries(cfg, entries, n - 1, depth), entries[n - 1];
            FirstEntries(cfg, entries, n, depth) ==
            if cfg.excluded(last.key) then before else Put(before, last.key, ShownValue(cfg, last, depth))
  {
  }

  /** One more entry wins if it is shown, and then every earlier one with its key loses. */
  lemma WinnersStep(cfg: Config, entries: seq<Entry>, m: nat, n: nat, depth: nat, e: Entry)
    requires depth <= MAX_DEPTH && m + 1 == n <= |entries|
    ensures var last := entries[m];
            var isNew := !cfg.excluded(last.key) && e == Entry(last.key, ShownValue(cfg, last, depth));
            var kept := (cfg.excluded(last.key) || e.key != last.key) && exists i: nat :: WinsAs(cfg, entries, i, m, depth, e);
            (exists i: nat :: WinsAs(cfg, entries, i, n, depth, e)) <==> isNew || kept
  {
    hide ShownValue;
    var last := entries[m];
    if i: nat :| WinsAs(cfg, entries, i, n, depth, e) {
      if i != m {
        assert WinsAs(cfg, entries, i, m, depth, e);
      }
    }
    if !cfg.excluded(last.key) && e == Entry(last.key, ShownValue(cfg, last, depth)) {
      assert WinsAs(cfg, entries, m, n, depth, e);
    }
    if i: nat :| WinsAs(cfg, entries, i, m, depth, e) {
      if cfg.excluded(last.key) || e.key != last.key {
        assert WinsAs(cfg, entries, i, n, depth, e);
      }
    }
  }

  lemma {:induction false} KeyHasLast(entries: seq<Entry>, i: nat, n: nat) returns (j: nat)
    requires i < n <= |entries|
    ensures i <= j < n && LastOfKey(entries, j, n) && entries[j].key == entries[i].key
    decreases n - i
  {
    if LastOfKey(entries, i, n) {
      return i;
    }
    var k :| i < k < n && entries[k].key == entries[i].key;
    j := KeyHasLast(entries, k, n);
  }

  /** Control characters reach a log entry, texts and keys at every depth, exactly where they are copied unescaped. */
  lemma {:induction false} LogIsCleanIff(cfg: Config, v: Value, depth: nat)
    requires depth <= MAX_DEPTH + 1
    ensures CleanOfC0(Sanitize(cfg, v, depth)) <==> CopiesNoC0(cfg, v, depth)
    decreases MAX_DEPTH + 1 - depth
  {
    hide SanitizeString, FreeOfC0;
    if depth > MAX_DEPTH {
      FixedTextsAreFree();
    } else if v.Dict? {
      forall i | 0 <= i < |v.entries| && !cfg.sensitive(v.entries[i].key)
        ensures CleanOfC0(Sanitize(cfg, v.entries[i].value, depth + 1)) <==> CopiesNoC0(cfg, v.entries[i].value, depth + 1)
      {
        LogIsCleanIff(cfg, v.entries[i].value, depth + 1);
      }
      DictIsCleanIff(cfg, v, depth);
    } else if v.Items? {
      var n := SliceIndex(|v.items|, cfg.maxItems);
      forall i | 0 <= i < n
        ensures CleanOfC0(Sanitize(cfg, v.items[i], depth + 1)) <==> CopiesNoC0(cfg, v.items[i], depth + 1)
      {
        LogIsCleanIff(cfg, v.items[i], depth + 1);
      }
      ItemsAreCleanIff(cfg, v, depth);
    } else {
      LeafIsCleanIff(cfg, v, depth);
    }
  }

  lemma LeafIsCleanIff(cfg: Config, v: Value, depth: nat)
    requires depth <= MAX_DEPTH && !v.Dict? && !v.Items?
    ensures CleanOfC0(Sanitize(cfg, v, depth)) <==> CopiesNoC0(cfg, v, depth)
  {
    hide FreeOfC0, SanitizeString, Decimal;
    match v
    case Text(s) => SanitizedIsFreeOfC0(s, cfg.maxString);
    case Bytes(n) =>
      DecimalLength(n, 1);
      BracketsAreFree();
      WrappedIsFreeIff("<bytes: ", Decimal(n), " bytes>");
    case Object(Some(s), _) => SanitizedIsFreeOfC0(s, cfg.maxString);
    case Object(None, name) =>
      BracketsAreFree();
      WrappedIsFreeIff("<", name, ": unserializable>");
    case _ =>
  }

  lemma BracketsAreFree()
    ensures FreeOfC0("<bytes: ") && FreeOfC0(" bytes>") && FreeOfC0("<") && FreeOfC0(": unserializable>")
  {
  }

  lemma WrappedIsFreeIff(a: string, s: string, b: string)
    requires FreeOfC0(a) && FreeOfC0(b)
    ensures FreeOfC0(a + s + b) <==> FreeOfC0(s)
  {
    var text := a + s + b;
    assert forall i :: 0 <= i < |s| ==> s[i] == text[|a| + i];
  }

  lemma FixedTextsAreFree()
    ensures FreeOfC0("<max depth exceeded>") && FreeOfC0(TRUNCATED)
  {
  }

  lemma NotesAreFree(k: nat)
    ensures FreeOfC0(Decimal(k) + " more keys") && FreeOfC0("...and " + Decimal(k) + " more items")
  {
    DecimalLength(k, 1);
  }

  ghost predicate CleanEntry(e: Entry) {
    FreeOfC0(e.key) && CleanOfC0(e.value)
  }

  /** What stands in a sanitized dict: the note, if there is one, and the last entries of the other shown keys. */
  lemma DictExactly(cfg: Config, entries: seq<Entry>, depth: nat)
    requires depth <= MAX_DEPTH
    ensures forall e :: e in SanitizeDict(cfg, entries, depth) <==>
              || (|entries| > cfg.maxKeys && e == TruncationNote(|entries| - cfg.maxKeys))
              || (exists i :: 0 <= i < |entries| && ReachesLog(cfg, entries, i)
                              && e == Entry(entries[i].key, ShownValue(cfg, entries[i], depth)))
  {
    hide Sanitize, ShownValue, FirstEntries, Put, DistinctKeys;
    var n := KeysTaken(|entries|, cfg.maxKeys);
    LastEntryWins(cfg, entries, n, depth);
    if |entries| > cfg.maxKeys {
      PutReplaces(FirstEntries(cfg, entries, n, depth), TRUNCATED, TruncationNote(|entries| - cfg.maxKeys).value);
    }
    forall e
      ensures (exists i: nat :: WinsAs(cfg, entries, i, n, depth, e)) && !(|entries| > cfg.maxKeys && e.key == TRUNCATED)
              <==> exists i :: 0 <= i < |entries| && ReachesLog(cfg, entries, i)
                               && e == Entry(entries[i].key, ShownValue(cfg, entries[i], depth))
    {
      if i: nat :| WinsAs(cfg, entries, i, n, depth, e) {
        if !(|entries| > cfg.maxKeys && e.key == TRUNCATED) {
          assert ReachesLog(cfg, entries, i);
        }
      }
      if i :| 0 <= i < |entries| && ReachesLog(cfg, entries, i) && e == Entry(entries[i].key, ShownValue(cfg, entries[i], depth)) {
        assert WinsAs(cfg, entries, i, n, depth, e);
      }
    }
  }

  lemma CleanDictIff(d: seq<Entry>)
    ensures CleanOfC0(Dict(d)) <==> forall e :: e in d ==> CleanEntry(e)
  {
    hide FreeOfC0;
    assert forall i :: 0 <= i < |d| ==> (CleanEntry(d[i]) <==> FreeOfC0(d[i].key) && CleanOfC0(d[i].value));
  }

  lemma DictIsCleanIff(cfg: Config, v: Value, depth: nat)
    requires depth <= MAX_DEPTH && v.Dict?
    requires forall i :: 0 <= i < |v.entries| && !cfg.sensitive(v.entries[i].key) ==>
               (CleanOfC0(Sanitize(cfg, v.entries[i].value, depth + 1)) <==> CopiesNoC0(cfg, v.entries[i].value, depth + 1))
    ensures CleanOfC0(Sanitize(cfg, v, depth)) <==> CopiesNoC0(cfg, v, depth)
  {
    hide FreeOfC0, ReachesLog, TruncationNote;
    var entries, out := v.entries, SanitizeDict(cfg, v.entries, depth);
    DictExactly(cfg, entries, depth);
    assert Sanitize(cfg, v, depth) == Dict(out);
    CleanDictIff(out);
    forall i | 0 <= i < |entries|
      ensures CleanOfC0(ShownValue(cfg, entries[i], depth)) <==>
              if cfg.sensitive(entries[i].key) then FreeOfC0(cfg.mask) else CopiesNoC0(cfg, entries[i].value, depth + 1)
    {
    }
    hide Sanitize, SanitizeDict, ShownValue;
    var k := if |entries| > cfg.maxKeys then |entries| - cfg.maxKeys else 0;
    NoteIsClean(k);
    if forall e :: e in out ==> CleanEntry(e) {
      forall i | 0 <= i < KeysTaken(|entries|, cfg.maxKeys) && !cfg.excluded(entries[i].key)
        ensures FreeOfC0(entries[i].key)
      {
        FixedTextsAreFree();
        var j := ShownKey(cfg, entries, i);
        if entries[i].key != TRUNCATED {
          assert CleanEntry(Entry(entries[j].key, ShownValue(cfg, entries[j], depth)));
        }
      }
      forall i | 0 <= i < |entries| && ReachesLog(cfg, entries, i)
        ensures CleanOfC0(ShownValue(cfg, entries[i], depth))
      {
        assert CleanEntry(Entry(entries[i].key, ShownValue(cfg, entries[i], depth)));
      }
    }
    if CopiesNoC0(cfg, v, depth) {
      forall e | e in out ensures CleanEntry(e) {
        if !(|entries| > cfg.maxKeys && e == TruncationNote(k)) {
          var i :| 0 <= i < |entries| && ReachesLog(cfg, entries, i)
                   && e == Entry(entries[i].key, ShownValue(cfg, entries[i], depth));
          ReachingIsTaken(cfg, entries, i);
        }
      }
    }
  }

  lemma NoteIsClean(k: nat)
    ensures CleanEntry(TruncationNote(k))
  {
    hide FreeOfC0;
    FixedTextsAreFree();
    NotesAreFree(k);
  }

  lemma ReachingIsTaken(cfg: Config, entries: seq<Entry>, i: nat)
    requires i < |entries| && ReachesLog(cfg, entries, i)
    ensures i < KeysTaken(|entries|, cfg.maxKeys) && !cfg.excluded(entries[i].key)
  {
  }

  /** A taken key reaches the log through its last entry, unless it is the one the note overwrites. */
  lemma ShownKey(cfg: Config, entries: seq<Entry>, i: nat) returns (j: nat)
    requires i < KeysTaken(|entries|, cfg.maxKeys) && !cfg.excluded(entries[i].key)
    ensures j < |entries| && entries[j].key == entries[i].key
    ensures entries[i].key != TRUNCATED ==> ReachesLog(cfg, entries, j)
  {
    j := KeyHasLast(entries, i, KeysTaken(|entries|, cfg.maxKeys));
  }

  lemma {:induction false} ItemsExactly(cfg: Config, items: seq<Value>, n: nat, depth: nat)
    requires depth <= MAX_DEPTH && n <= |items|
    ensures forall i :: 0 <= i < n ==> FirstItems(cfg, items, n, depth)[i] == Sanitize(cfg, items[i], depth + 1)
    decreases n
  {
    hide Sanitize;
    if n != 0 {
      ItemsExactly(cfg, items, n - 1, depth);
    }
  }

  lemma ItemsAreCleanIff(cfg: Config, v: Value, depth: nat)
    requires depth <= MAX_DEPTH && v.Items?
    requires forall i :: 0 <= i < SliceIndex(|v.items|, cfg.maxItems) ==>
               (CleanOfC0(Sanitize(cfg, v.items[i], depth + 1)) <==> CopiesNoC0(cfg, v.items[i], depth + 1))
    ensures CleanOfC0(Sanitize(cfg, v, depth)) <==> CopiesNoC0(cfg, v, depth)
  {
    hide FreeOfC0;
    var n := SliceIndex(|v.items|, cfg.maxItems);
    var shown, out := FirstItems(cfg, v.items, n, depth), SanitizeItems(cfg, v.items, depth);
    assert Sanitize(cfg, v, depth) == Items(out);
    ItemsExactly(cfg, v.items, n, depth);
    hide Sanitize;
    NotesAreFree(if |v.items| > cfg.maxItems then |v.items| - cfg.maxItems else 0);
    assert forall i :: 0 <= i < n ==> out[i] == shown[i];
    assert forall i :: n <= i < |out| ==> CleanOfC0(out[i]);
  }

  /** A line break in a key reaches the log unescaped. */
  lemma KeyWithLineBreakIsLogged(cfg: Config)
    requires !cfg.excluded("a\nb") && !cfg.sensitive("a\nb") && 1 <= cfg.maxKeys
    ensures var v := Dict([Entry("a\nb", Null)]);
            Sanitize(cfg, v, 0) == v && !CleanOfC0(v)
  {
    var entries := [Entry("a\nb", Null)];
    assert FirstEntries(cfg, entries, 0, 0) == [];
    assert FirstEntries(cfg, entries, 1, 0) == entries;
    assert "a\nb"[1] == '\n';
    assert !FreeOfC0(entries[0].key);
  }
}
