/**
 What a sanitized value still tells. The relation `Tells` and the decoder `Recover` look at a log entry only; neither
 mentions how it was made.
 */
module LogRecovery {
  import opened Wrappers
  import opened Numerals
  import opened LogEscaping
  import opened LogRedaction

  // ---------------------------------------------------------------- what each value is told as

  /** A text within the limit can be read back; of a longer one the two ends of the escape are left, and its length. */
  ghost predicate TellsText(s: string, maxString: int, out: string) {
    var text, half := EscapePasses(s), (maxString - 20) / 2;
    if |text| <= maxString then
      Unescape(out) == Some(s)
    else
      var note := " (" + Decimal(|s|) + " chars)";
      if 0 < half then 2 * half <= |text| && out == text[..half] + "..." + text[|text| - half..] + note
      else if half == 0 then out == "..." + text + note
      else if -half <= |text| then out == text[..|text| + half] + "..." + text[-half..] + note
      else out == "..." + note
  }

  /** How many of `n` entries a limit leaves. */
  function Within(n: nat, limit: int): nat {
    if limit <= 0 then 0 else if n <= limit then n else limit
  }

  /** How many of `n` items a slice bound leaves: a negative one counts from the end. */
  function Sliced(n: nat, limit: int): nat {
    if 0 <= limit then Within(n, limit) else if n + limit <= 0 then 0 else n + limit
  }

  /** The keys that are not excluded, in the order in which they first occur. */
  function ShownKeys(cfg: Config, entries: seq<Entry>, n: nat): seq<string>
    requires n <= |entries|
  {
    if n == 0 then []
    else
      var before, key := ShownKeys(cfg, entries, n - 1), entries[n - 1].key;
      if cfg.excluded(key) || key in before then before else before + [key]
  }

  ghost predicate Overwritten(entries: seq<Entry>, i: nat, n: nat) {
    exists j :: i < j < n <= |entries| && i < n && entries[j].key == entries[i].key
  }

  ghost predicate Tells(cfg: Config, v: Value, out: Value, depth: nat)
    decreases v
  {
    if depth > 5 then out == Text("<max depth exceeded>")
    else
      match v
      case Null => out == Null
      case Bool(b) => out == Bool(b)
      case Number(n) => out == Number(n)
      case Text(s) => out.Text? && TellsText(s, cfg.maxString, out.s)
      case Bytes(n) => out == Text("<bytes: " + Decimal(n) + " bytes>")
      case Object(Some(s), _) => out.Text? && TellsText(s, cfg.maxString, out.s)
      case Object(None, name) => out == Text("<" + name + ": unserializable>")
      case Items(items) =>
        var n := Sliced(|items|, cfg.maxItems);
        && out.Items? && n <= |items| && n <= |out.items|
        && (forall i :: 0 <= i < n ==> Tells(cfg, items[i], out.items[i], depth + 1))
        && out.items[n..] == if |items| > cfg.maxItems
                             then [Text("...and " + Decimal(|items| - cfg.maxItems) + " more items")] else []
      case Dict(entries) =>
        var n := Within(|entries|, cfg.maxKeys);
        var keys := ShownKeys(cfg, entries, n);
        && out.Dict?
        && KeysOf(out.entries) == (if |entries| > cfg.maxKeys && "__truncated__" !in keys then keys + ["__truncated__"] else keys)
        && (forall e :: e in out.entries && !(|entries| > cfg.maxKeys && e.key == "__truncated__") ==>
              exists i :: 0 <= i < n && !Overwritten(entries, i, n) && !cfg.excluded(e.key) && entries[i].key == e.key
                          && if cfg.sensitive(e.key) then e.value == Text(cfg.mask)
                             else Tells(cfg, entries[i].value, e.value, depth + 1))
        && (|entries| > cfg.maxKeys ==> Entry("__truncated__", Text(Decimal(|entries| - cfg.maxKeys) + " more keys")) in out.entries)
  }

  function KeysOf(d: seq<Entry>): (keys: seq<string>)
    ensures |keys| == |d| && forall i :: 0 <= i < |d| ==> keys[i] == d[i].key
  {
    seq(|d|, i requires 0 <= i < |d| => d[i].key)
  }

  // ---------------------------------------------------------------- the log tells it

  lemma TextIsTold(s: string, maxString: int)
    ensures TellsText(s, maxString, SanitizeString(s, maxString))
  {
    hide EscapePasses, Unescape, Decimal, Cut;
    if |EscapePasses(s)| <= maxString {
      SanitizedIsFreeOfC0(s, maxString);
    } else {
      CutIsTold(EscapePasses(s), maxString, |s|);
    }
  }

  lemma CutIsTold(text: string, maxString: int, length: nat)
    requires |text| > maxString
    ensures var half, note := (maxString - 20) / 2, " (" + Decimal(length) + " chars)";
            var cut := Cut(text, maxString, length);
            if 0 < half then 2 * half <= |text| && cut == text[..half] + "..." + text[|text| - half..] + note
            else if half == 0 then cut == "..." + text + note
            else if -half <= |text| then cut == text[..|text| + half] + "..." + text[-half..] + note
            else cut == "..." + note
  {
    hide Decimal;
    var half := (maxString - 20) / 2;
    assert text[..0] == "" && text[0..] == text && text[|text|..] == "";
    assert "" + "..." == "..." && "..." + "" == "...";
  }

  lemma LimitsAreRead(n: nat, limit: int)
    ensures KeysTaken(n, limit) == Within(n, limit) <= n
    ensures SliceIndex(n, limit) == Sliced(n, limit) <= n
  {
  }

  lemma KeysOfCons(e: Entry, d: seq<Entry>)
    ensures KeysOf([e] + d) == [e.key] + KeysOf(d)
  {
  }

  lemma {:induction false} PutKeys(d: seq<Entry>, key: string, value: Value)
    ensures KeysOf(Put(d, key, value)) == if key in KeysOf(d) then KeysOf(d) else KeysOf(d) + [key]
  {
    if d == [] {
      KeysOfCons(Entry(key, value), []);
      assert KeysOf([]) == [] && [Entry(key, value)] + [] == [Entry(key, value)];
    } else {
      var head, rest := d[0], d[1..];
      assert d == [head] + rest;
      KeysOfCons(head, rest);
      if head.key == key {
        KeysOfCons(Entry(key, value), rest);
      } else {
        PutKeys(rest, key, value);
        KeysOfCons(head, Put(rest, key, value));
        hide KeysOf;
        assert [head.key] + (KeysOf(rest) + [key]) == [head.key] + KeysOf(rest) + [key];
      }
    }
  }

  lemma {:induction false} KeysInOrder(cfg: Config, entries: seq<Entry>, n: nat, depth: nat)
    requires depth <= MAX_DEPTH && n <= |entries|
    ensures KeysOf(FirstEntries(cfg, entries, n, depth)) == ShownKeys(cfg, entries, n)
    decreases n
  {
    hide Sanitize, ShownValue, Put;
    if n == 0 {
      assert KeysOf([]) == [];
    } else {
      KeysInOrder(cfg, entries, n - 1, depth);
      FirstEntriesStep(cfg, entries, n, depth);
      var last := entries[n - 1];
      PutKeys(FirstEntries(cfg, entries, n - 1, depth), last.key, ShownValue(cfg, last, depth));
    }
  }

  lemma DictKeysInOrder(cfg: Config, entries: seq<Entry>, depth: nat)
    requires depth <= MAX_DEPTH
    ensures var keys := ShownKeys(cfg, entries, KeysTaken(|entries|, cfg.maxKeys));
            KeysOf(SanitizeDict(cfg, entries, depth))
            == if |entries| > cfg.maxKeys && TRUNCATED !in keys then keys + [TRUNCATED] else keys
  {
    var n := KeysTaken(|entries|, cfg.maxKeys);
    KeysInOrder(cfg, entries, n, depth);
    hide FirstEntries, ShownKeys, Put;
    if |entries| > cfg.maxKeys {
      PutKeys(FirstEntries(cfg, entries, n, depth), TRUNCATED, Text(Decimal(|entries| - cfg.maxKeys) + " more keys"));
    }
  }

  /** Every value is told by its log: scalars as they are, texts as above, every shown key and item, in order, and what was left out. */
  lemma {:induction false} LogTells(cfg: Config, v: Value, depth: nat)
    requires depth <= MAX_DEPTH + 1
    ensures Tells(cfg, v, Sanitize(cfg, v, depth), depth)
    decreases MAX_DEPTH + 1 - depth
  {
    if depth <= MAX_DEPTH {
      hide TellsText, SanitizeString;
      if v.Text? {
        TextIsTold(v.s, cfg.maxString);
      } else if v.Object? && v.str.Some? {
        TextIsTold(v.str.value, cfg.maxString);
      } else if v.Items? {
        forall i | 0 <= i < |v.items| ensures Tells(cfg, v.items[i], Sanitize(cfg, v.items[i], depth + 1), depth + 1) {
          LogTells(cfg, v.items[i], depth + 1);
        }
        ItemsAreTold(cfg, v, depth);
      } else if v.Dict? {
        forall i | 0 <= i < |v.entries|
          ensures Tells(cfg, v.entries[i].value, Sanitize(cfg, v.entries[i].value, depth + 1), depth + 1)
        {
          LogTells(cfg, v.entries[i].value, depth + 1);
        }
        DictIsTold(cfg, v, depth);
      }
    }
  }

  lemma ItemsAreTold(cfg: Config, v: Value, depth: nat)
    requires depth <= MAX_DEPTH && v.Items?
    requires forall i :: 0 <= i < |v.items| ==> Tells(cfg, v.items[i], Sanitize(cfg, v.items[i], depth + 1), depth + 1)
    ensures Tells(cfg, v, Sanitize(cfg, v, depth), depth)
  {
    var items, n := v.items, SliceIndex(|v.items|, cfg.maxItems);
    var shown, out := FirstItems(cfg, items, n, depth), SanitizeItems(cfg, items, depth);
    assert Sanitize(cfg, v, depth) == Items(out);
    ItemsExactly(cfg, items, n, depth);
    LimitsAreRead(|items|, cfg.maxItems);
    hide Sanitize, FirstItems, Sliced, SliceIndex, Decimal;
    assert out[n..] == if |items| > cfg.maxItems then [Text("...and " + Decimal(|items| - cfg.maxItems) + " more items")] else [];
    forall i | 0 <= i < n ensures Tells(cfg, items[i], out[i], depth + 1) {
      assert out[i] == shown[i];
    }
  }

  lemma DictIsTold(cfg: Config, v: Value, depth: nat)
    requires depth <= MAX_DEPTH && v.Dict?
    requires forall i :: 0 <= i < |v.entries| ==>
               Tells(cfg, v.entries[i].value, Sanitize(cfg, v.entries[i].value, depth + 1), depth + 1)
    ensures Tells(cfg, v, Sanitize(cfg, v, depth), depth)
  {
    var entries, out := v.entries, SanitizeDict(cfg, v.entries, depth);
    var n := Within(|entries|, cfg.maxKeys);
    assert Sanitize(cfg, v, depth) == Dict(out);
    LimitsAreRead(|entries|, cfg.maxKeys);
    DictKeysInOrder(cfg, entries, depth);
    DictExactly(cfg, entries, depth);
    forall e | e in out && !(|entries| > cfg.maxKeys && e.key == "__truncated__")
      ensures exists i :: 0 <= i < n && !Overwritten(entries, i, n) && !cfg.excluded(e.key) && entries[i].key == e.key
                          && if cfg.sensitive(e.key) then e.value == Text(cfg.mask)
                             else Tells(cfg, entries[i].value, e.value, depth + 1)
    {
      hide Sanitize, SanitizeDict, Tells, Decimal;
      var i :| 0 <= i < |entries| && ReachesLog(cfg, entries, i)
               && e == Entry(entries[i].key, ShownValue(cfg, entries[i], depth));
      assert !Overwritten(entries, i, n);
    }
    hide Sanitize, SanitizeDict, ShownKeys, Overwritten, ReachesLog, ShownValue, Decimal;
  }

  // ---------------------------------------------------------------- reading a log entry back

  /** Nothing hidden, nothing over a limit, and no value that is logged as a text it is not. */
  predicate IsPlain(cfg: Config, v: Value, depth: nat)
    decreases v
  {
    depth <= 5
    && match v
       case Null | Bool(_) | Number(_) => true
       case Text(s) => |EscapePasses(s)| <= cfg.maxString
       case Items(items) =>
         |items| <= cfg.maxItems && forall i :: 0 <= i < |items| ==> IsPlain(cfg, items[i], depth + 1)
       case Dict(entries) =>
         && |entries| <= cfg.maxKeys
         && (forall i, j :: 0 <= i < j < |entries| ==> entries[i].key != entries[j].key)
         && (forall i :: 0 <= i < |entries| ==> !cfg.excluded(entries[i].key) && !cfg.sensitive(entries[i].key))
         && (forall i :: 0 <= i < |entries| ==> IsPlain(cfg, entries[i].value, depth + 1))
       case _ => false
  }

  /** Containers as they are, texts unescaped. */
  ghost predicate Reads(out: Value, v: Value)
    decreases v
  {
    match v
    case Null => out == Null
    case Bool(b) => out == Bool(b)
    case Number(n) => out == Number(n)
    case Text(s) => out.Text? && Unescape(out.s) == Some(s)
    case Items(items) =>
      out.Items? && |out.items| == |items| && forall i :: 0 <= i < |items| ==> Reads(out.items[i], items[i])
    case Dict(entries) =>
      out.Dict? && |out.entries| == |entries|
      && forall i :: 0 <= i < |entries| ==> out.entries[i].key == entries[i].key && Reads(out.entries[i].value, entries[i].value)
    case _ => false
  }

  /** A log entry can be read in one way only. */
  lemma {:induction false} ReadsOneValue(out: Value, v: Value, w: Value)
    requires Reads(out, v) && Reads(out, w)
    ensures v == w
    decreases v
  {
    if v.Items? {
      forall i | 0 <= i < |v.items| ensures v.items[i] == w.items[i] {
        ReadsOneValue(out.items[i], v.items[i], w.items[i]);
      }
      assert v.items == w.items;
    } else if v.Dict? {
      forall i | 0 <= i < |v.entries| ensures v.entries[i] == w.entries[i] {
        ReadsOneValue(out.entries[i].value, v.entries[i].value, w.entries[i].value);
      }
      assert v.entries == w.entries;
    }
  }

  lemma {:induction false} PlainEntries(cfg: Config, entries: seq<Entry>, n: nat, depth: nat)
    requires depth <= MAX_DEPTH && n <= |entries|
    requires forall i, j :: 0 <= i < j < |entries| ==> entries[i].key != entries[j].key
    requires forall i :: 0 <= i < |entries| ==> !cfg.excluded(entries[i].key) && !cfg.sensitive(entries[i].key)
    ensures var shown := FirstEntries(cfg, entries, n, depth);
            |shown| == n && forall i :: 0 <= i < n ==> shown[i] == Entry(entries[i].key, Sanitize(cfg, entries[i].value, depth + 1))
    decreases n
  {
    hide Sanitize;
    if n != 0 {
      PlainEntries(cfg, entries, n - 1, depth);
      var before, last := FirstEntries(cfg, entries, n - 1, depth), entries[n - 1];
      PutNew(before, last.key, Sanitize(cfg, last.value, depth + 1));
    }
  }

  lemma {:induction false} PutNew(d: seq<Entry>, key: string, value: Value)
    requires forall i :: 0 <= i < |d| ==> d[i].key != key
    ensures Put(d, key, value) == d + [Entry(key, value)]
  {
    if d != [] {
      PutNew(d[1..], key, value);
      assert d == [d[0]] + d[1..];
    }
  }

  /** Within its limits a container is logged whole. */
  lemma ContainersFit(cfg: Config, v: Value, depth: nat)
    requires depth <= MAX_DEPTH
    ensures v.Items? && |v.items| <= cfg.maxItems ==>
              Sanitize(cfg, v, depth) == Items(FirstItems(cfg, v.items, |v.items|, depth))
    ensures v.Dict? && |v.entries| <= cfg.maxKeys ==>
              Sanitize(cfg, v, depth) == Dict(FirstEntries(cfg, v.entries, |v.entries|, depth))
  {
    hide FirstItems, FirstEntries;
    if v.Items? {
      LimitsAreRead(|v.items|, cfg.maxItems);
      var shown := FirstItems(cfg, v.items, SliceIndex(|v.items|, cfg.maxItems), depth);
      assert shown + [] == shown;
    } else if v.Dict? {
      LimitsAreRead(|v.entries|, cfg.maxKeys);
    }
  }

  /** A plain value is read back from its log. */
  lemma {:induction false} PlainIsReadBack(cfg: Config, v: Value, depth: nat)
    requires depth <= MAX_DEPTH && IsPlain(cfg, v, depth)
    ensures Reads(Sanitize(cfg, v, depth), v)
    decreases v
  {
    hide SanitizeString, Unescape, EscapePasses;
    if v.Text? {
      SanitizedIsFreeOfC0(v.s, cfg.maxString);
    } else if v.Items? {
      ItemsExactly(cfg, v.items, |v.items|, depth);
      ContainersFit(cfg, v, depth);
      forall i | 0 <= i < |v.items| ensures Reads(Sanitize(cfg, v.items[i], depth + 1), v.items[i]) {
        PlainIsReadBack(cfg, v.items[i], depth + 1);
      }
    } else if v.Dict? {
      PlainEntries(cfg, v.entries, |v.entries|, depth);
      ContainersFit(cfg, v, depth);
      forall i | 0 <= i < |v.entries| ensures Reads(Sanitize(cfg, v.entries[i].value, depth + 1), v.entries[i].value) {
        PlainIsReadBack(cfg, v.entries[i].value, depth + 1);
      }
    }
  }

  /** So plain values that differ are logged differently. */
  lemma PlainLogsDiffer(cfg: Config, v: Value, w: Value)
    requires IsPlain(cfg, v, 0) && IsPlain(cfg, w, 0) && v != w
    ensures Sanitize(cfg, v, 0) != Sanitize(cfg, w, 0)
  {
    hide Sanitize, Reads, IsPlain;
    PlainIsReadBack(cfg, v, 0);
    PlainIsReadBack(cfg, w, 0);
    if Sanitize(cfg, v, 0) == Sanitize(cfg, w, 0) {
      ReadsOneValue(Sanitize(cfg, v, 0), v, w);
    }
  }
}
