/** Text files on a POSIX system: text is written as it is, and read with universal newlines. */
module TextFile {
  import opened TextSearch

  /** The text read from a file: a carriage return, with a newline after it if there is one, is read as a newline. */
  function ReadText(raw: string): string
    decreases |raw|
  {
    if raw == "" then ""
    else if raw[0] != '\r' then [raw[0]] + ReadText(raw[1..])
    else if 1 < |raw| && raw[1] == '\n' then "\n" + ReadText(raw[2..])
    else "\n" + ReadText(raw[1..])
  }

  /** No carriage return is ever read, and a text without one is read as it is. */
  lemma {:induction false} ReadHasNoReturn(raw: string)
    ensures '\r' !in ReadText(raw)
    ensures ReadText(raw) == raw <==> '\r' !in raw
    decreases |raw|
  {
    if raw != "" {
      assert raw == [raw[0]] + raw[1..];
      if raw[0] != '\r' {
        ReadHasNoReturn(raw[1..]);
      } else if 1 < |raw| && raw[1] == '\n' {
        ReadHasNoReturn(raw[2..]);
      } else {
        ReadHasNoReturn(raw[1..]);
      }
    }
  }

  lemma ReadOther(c: char, s: string)
    requires c != '\r'
    ensures ReadText([c] + s) == [c] + ReadText(s)
  {
    assert ([c] + s)[1..] == s;
  }

  lemma ReadPair(s: string)
    ensures ReadText("\r\n" + s) == "\n" + ReadText(s)
  {
    assert ("\r\n" + s)[2..] == s;
  }

  lemma ReadReturn(s: string)
    requires s == "" || s[0] != '\n'
    ensures ReadText("\r" + s) == "\n" + ReadText(s)
  {
    assert ("\r" + s)[1..] == s;
  }

  lemma ReadHead(head: string, line: string, x: string, b: string)
    requires ReadText(head + x) == line + ReadText(x) && ReadText(head + (x + b)) == line + ReadText(x + b)
    requires ReadText(x + b) == ReadText(x) + ReadText(b)
    ensures ReadText(head + x + b) == ReadText(head + x) + ReadText(b)
  {
    hide ReadText;
    assert head + x + b == head + (x + b);
    assert line + ReadText(x) + ReadText(b) == line + (ReadText(x) + ReadText(b));
  }

  /** Reading works piece by piece, where no cut separates a carriage return from a newline. */
  lemma {:induction false} ReadConcat(a: string, b: string)
    requires a == "" || b == "" || a[|a| - 1] != '\r' || b[0] != '\n'
    ensures ReadText(a + b) == ReadText(a) + ReadText(b)
    decreases |a|
  {
    if a == "" {
      assert a + b == b;
    } else {
      hide ReadText;
      var n := if a[0] == '\r' && 1 < |a| && a[1] == '\n' then 2 else 1;
      var head, x := a[..n], a[n..];
      assert a == head + x;
      ReadConcat(x, b);
      if a[0] != '\r' {
        assert head == [a[0]];
        ReadOther(a[0], x);
        ReadOther(a[0], x + b);
        ReadHead(head, head, x, b);
      } else if n == 2 {
        assert head == "\r\n";
        ReadPair(x);
        ReadPair(x + b);
        ReadHead(head, "\n", x, b);
      } else {
        assert head == "\r";
        ReadReturn(x);
        ReadReturn(x + b);
        ReadHead(head, "\n", x, b);
      }
    }
  }

  lemma {:induction false} PrefixRead(raw: string, m: string)
    requires '\r' !in m && '\n' !in m
    ensures m <= ReadText(raw) <==> m <= raw
    decreases |m|
  {
    if m != "" && raw != "" {
      assert m == [m[0]] + m[1..];
      if raw[0] != '\r' {
        var text := ReadText(raw[1..]);
        PrefixRead(raw[1..], m[1..]);
        PrefixOfCons(m, raw[0], text);
        PrefixOfCons(m, raw[0], raw[1..]);
        assert raw == [raw[0]] + raw[1..];
      } else {
        assert m[0] in m && ReadText(raw)[0] == '\n';
      }
    }
  }

  lemma PrefixOfCons(m: string, c: char, s: string)
    requires m != ""
    ensures m <= [c] + s <==> m[0] == c && m[1..] <= s
  {
    var t := [c] + s;
    assert t[1..] == s;
    if m <= t {
      assert m[1..] == t[1..][..|m| - 1];
    }
    if m[0] == c && m[1..] <= s {
      assert m == [c] + m[1..];
    }
  }

  lemma ContainsStep(s: string, m: string)
    requires s != ""
    ensures Contains(s, m) <==> m <= s || Contains(s[1..], m)
  {
    forall i: nat ensures OccursAt(s, m, i + 1) <==> OccursAt(s[1..], m, i) {
      OccursLater(s, m, i);
    }
    assert OccursAt(s, m, 0) <==> m <= s;
    if Contains(s, m) && !(m <= s) {
      var i: nat :| OccursAt(s, m, i);
      assert i != 0;
      assert OccursAt(s, m, (i - 1) + 1) && OccursAt(s[1..], m, i - 1);
    }
    if Contains(s[1..], m) {
      var i: nat :| OccursAt(s[1..], m, i);
      assert OccursAt(s, m, i + 1);
    }
  }

  /** Reading neither makes nor breaks an occurrence of a pattern that lies within one line. */
  lemma {:induction false} ContainsRead(raw: string, m: string)
    requires m != "" && '\r' !in m && '\n' !in m
    ensures Contains(ReadText(raw), m) <==> Contains(raw, m)
    decreases |raw|
  {
    hide Contains;
    if raw == "" {
      assert ReadText(raw) == raw;
    } else {
      assert m[0] in m;
      var text := ReadText(raw);
      ContainsStep(raw, m);
      ContainsStep(text, m);
      PrefixRead(raw, m);
      if raw[0] != '\r' {
        assert text[1..] == ReadText(raw[1..]);
        ContainsRead(raw[1..], m);
      } else if 1 < |raw| && raw[1] == '\n' {
        assert text[1..] == ReadText(raw[2..]);
        ContainsStep(raw[1..], m);
        assert raw[1..][1..] == raw[2..];
        ContainsRead(raw[2..], m);
      } else {
        assert text[1..] == ReadText(raw[1..]);
        ContainsRead(raw[1..], m);
      }
    }
  }
}
