/**
 * The text side of the 128x64 OLED: `convert_to_ascii`, which rewrites a few Chinese status
 * phrases to English and drops every other non-ASCII character, and the line layout of
 * `display_text`, which draws the lines of the converted text 12 pixels apart from the top.
 */
module Display {
  import opened Text

  const OledWidth := 128
  const OledHeight := 64
  const LineHeight := 12

  /** How many lines fit: `y_offset` takes the values 0, 12, 24, 36, 48 while `y_offset < 64 - 12`. */
  const MaxLines := 5

  /** The phrase table of `convert_to_ascii`, in the dictionary's insertion order. */
  const Replacements: seq<(string, string)> := [
    ("等待连接", "Waiting..."),
    ("蓝牙等待连接", "BT Waiting"),
    ("已连接", "Connected"),
    ("蓝牙已连接", "BT Connected"),
    ("蓝牙已断开", "BT Disconnected"),
    ("连接已断开", "Disconnected"),
    ("舵机", "Servo"),
    ("服务器已关闭", "Server Closed"),
    ("温度", "Temp"),
    ("时间", "Time"),
    ("状态", "Status"),
    ("正常", "Normal")
  ]

  /** A replacement table whose every phrase is non-empty and holds a non-ASCII character. */
  predicate PhraseTable(table: seq<(string, string)>) {
    forall k :: 0 <= k < |table| ==> table[k].0 != [] && !IsAscii(table[k].0[0])
  }

  lemma ReplacementsArePhrases()
    ensures PhraseTable(Replacements)
  {
  }

  /** The text after each `text = text.replace(chinese, english)` of the table, in order. */
  function ApplyReplacements(s: string, table: seq<(string, string)>): string
    requires PhraseTable(table)
    decreases |table|
  {
    if table == [] then s
    else ApplyReplacements(Replace(s, table[0].0, table[0].1), table[1..])
  }

  /** `''.join(char for char in text if ord(char) < 128)` */
  function FilterAscii(s: string): (r: string)
    ensures |r| <= |s|
    decreases |s|
  {
    if s == [] then []
    else (if IsAscii(s[0]) then [s[0]] else []) + FilterAscii(s[1..])
  }

  /** What `convert_to_ascii(text)` returns. */
  function AsciiText(s: string): string {
    ReplacementsArePhrases();
    FilterAscii(ApplyReplacements(s, Replacements))
  }

  /** `convert_to_ascii`: one `replace` per table entry, then the non-ASCII filter. */
  method ConvertToAscii(text: string) returns (r: string)
    ensures r == AsciiText(text)
    ensures AllAscii(r)
  {
    ReplacementsArePhrases();
    var table := Replacements;
    var t := text;
    for i := 0 to |table|
      invariant Remaining(text, t, table, i)
    {
      RemainingStep(text, t, table, i);
      t := Replace(t, table[i].0, table[i].1);
    }
    assert table[|table|..] == [];
    r := FilterAscii(t);
    FilterAsciiIsAscii(t);
  }

  /** After the first `i` replacements, the rest of the table turns `t` into the full result for `text`. */
  predicate Remaining(text: string, t: string, table: seq<(string, string)>, i: nat) {
    && PhraseTable(table) && i <= |table|
    && ApplyReplacements(t, table[i..]) == ApplyReplacements(text, table)
  }

  lemma RemainingStep(text: string, t: string, table: seq<(string, string)>, i: nat)
    requires Remaining(text, t, table, i) && i < |table|
    ensures Remaining(text, Replace(t, table[i].0, table[i].1), table, i + 1)
  {
    assert table[i..][0] == table[i] && table[i..][1..] == table[i + 1..];
  }

  /** None of the table's phrases occurs in ASCII text, so the replacements leave it alone. */
  lemma {:induction false} ApplyReplacementsAscii(s: string, table: seq<(string, string)>)
    requires PhraseTable(table) && AllAscii(s)
    ensures ApplyReplacements(s, table) == s
    decreases |table|
  {
    if table != [] {
      var phrase := table[0].0;
      ContainsAscii(s, phrase);
      assert !AllAscii(phrase);
      ReplaceAbsent(s, phrase, table[0].1);
      ApplyReplacementsAscii(s, table[1..]);
    }
  }

  /** ASCII text is displayed as it is. */
  lemma AsciiTextOfAscii(s: string)
    requires AllAscii(s)
    ensures AsciiText(s) == s
  {
    ReplacementsArePhrases();
    ApplyReplacementsAscii(s, Replacements);
    FilterAsciiIsAscii(s);
  }

  /** Converting twice is converting once. */
  lemma AsciiTextIdempotent(s: string)
    ensures AllAscii(AsciiText(s))
    ensures AsciiText(AsciiText(s)) == AsciiText(s)
  {
    ReplacementsArePhrases();
    FilterAsciiIsAscii(ApplyReplacements(s, Replacements));
    AsciiTextOfAscii(AsciiText(s));
  }

  /** A line drawn on the display: its top edge `y` and its text. */
  datatype PlacedLine = PlacedLine(y: int, text: string)

  /** The lines of the converted text, as `display_text` splits them. */
  function DisplayLines(text: string): seq<string> {
    Split(AsciiText(text), '\n')
  }

  /**
   * The loop of `display_text`: each line is drawn at `y_offset`, made ASCII once more, while
   * `y_offset < 64 - 12`; later lines are skipped, not wrapped.
   */
  method DrawLines(lines: seq<string>) returns (drawn: seq<PlacedLine>)
    ensures |drawn| == Min(|lines|, MaxLines)
    ensures forall k :: 0 <= k < |drawn| ==> drawn[k] == PlacedLine(k * LineHeight, FilterAscii(lines[k]))
  {
    var yOffset := 0;
    drawn := [];
    for i := 0 to |lines|
      invariant yOffset == |drawn| * LineHeight
      invariant |drawn| == Min(i, MaxLines)
      invariant forall k :: 0 <= k < |drawn| ==> drawn[k] == PlacedLine(k * LineHeight, FilterAscii(lines[k]))
    {
      if yOffset < OledHeight - LineHeight {
        var safeLine := FilterAscii(lines[i]);
        drawn := drawn + [PlacedLine(yOffset, safeLine)];
        yOffset := yOffset + LineHeight;
      }
    }
  }

  /**
   * The text part of `display_text`: at most five lines, the first lines of the converted text,
   * at y = 0, 12, 24, 36, 48, each fully inside the 64-pixel-high display.
   */
  method DisplayText(text: string) returns (drawn: seq<PlacedLine>)
    ensures |drawn| == Min(|DisplayLines(text)|, MaxLines)
    ensures forall k :: 0 <= k < |drawn| ==> drawn[k] == PlacedLine(k * LineHeight, DisplayLines(text)[k])
    ensures forall k :: 0 <= k < |drawn| ==> 0 <= drawn[k].y && drawn[k].y + LineHeight <= OledHeight
  {
    var displayText := ConvertToAscii(text);
    var lines := Split(displayText, '\n');
    drawn := DrawLines(lines);
    SplitAscii(displayText, '\n');
    forall k | 0 <= k < |drawn|
      ensures drawn[k] == PlacedLine(k * LineHeight, DisplayLines(text)[k])
    {
      FilterAsciiIsAscii(lines[k]);
    }
  }

  /** The filter's output is ASCII, and ASCII input passes through unchanged. */
  lemma {:induction false} FilterAsciiIsAscii(s: string)
    ensures AllAscii(FilterAscii(s))
    ensures AllAscii(s) ==> FilterAscii(s) == s
    decreases |s|
  {
    if s != [] {
      FilterAsciiIsAscii(s[1..]);
      var head := if IsAscii(s[0]) then [s[0]] else [];
      var r := FilterAscii(s);
      assert r == head + FilterAscii(s[1..]);
      forall i | 0 <= i < |r|
        ensures IsAscii(r[i])
      {
        if i >= |head| {
          assert r[i] == FilterAscii(s[1..])[i - |head|];
        }
      }
      if AllAscii(s) {
        assert AllAscii(s[1..]) by {
          forall i | 0 <= i < |s[1..]|
            ensures IsAscii(s[1..][i])
          {
            assert s[1..][i] == s[i + 1];
          }
        }
        assert s == [s[0]] + s[1..];
      }
    }
  }

  /** The filter works piecewise. */
  lemma {:induction false} FilterAsciiAppend(a: string, b: string)
    ensures FilterAscii(a + b) == FilterAscii(a) + FilterAscii(b)
    decreases |a|
  {
    if a == [] {
      assert a + b == b;
    } else {
      var h := if IsAscii(a[0]) then [a[0]] else [];
      assert (a + b)[0] == a[0] && (a + b)[1..] == a[1..] + b;
      assert FilterAscii(a + b) == h + FilterAscii(a[1..] + b);
      FilterAsciiAppend(a[1..], b);
      AppendShift(h, FilterAscii(a[1..]), FilterAscii(b), FilterAscii(a + b));
    }
  }

  /** The filter keeps exactly the ASCII characters. */
  lemma {:induction false} FilterAsciiMembers(s: string, c: char)
    ensures c in FilterAscii(s) <==> c in s && IsAscii(c)
    decreases |s|
  {
    if s != [] {
      FilterAsciiMembers(s[1..], c);
      assert s == [s[0]] + s[1..];
    }
  }

  lemma {:induction false} FilterNonAscii(s: string)
    requires forall i :: 0 <= i < |s| ==> !IsAscii(s[i])
    ensures FilterAscii(s) == []
    decreases |s|
  {
    if s != [] {
      FilterNonAscii(s[1..]);
    }
  }

  /** A phrase with a character that does not occur in `s` is skipped. */
  lemma SkipPhrase(s: string, table: seq<(string, string)>, i: nat)
    requires PhraseTable(table) && table != []
    requires i < |table[0].0| && table[0].0[i] !in s
    ensures ApplyReplacements(s, table) == ApplyReplacements(s, table[1..])
  {
    ContainsChar(s, table[0].0, i);
    ReplaceAbsent(s, table[0].0, table[0].1);
  }

  /** When each phrase has a character (at `pick[k]`) absent from `s`, the table leaves `s` alone. */
  lemma {:induction false} SkipAll(s: string, table: seq<(string, string)>, pick: seq<nat>)
    requires PhraseTable(table) && |pick| == |table|
    requires forall k :: 0 <= k < |table| ==> pick[k] < |table[k].0| && table[k].0[pick[k]] !in s
    ensures ApplyReplacements(s, table) == s
    decreases |table|
  {
    if table != [] {
      SkipPhrase(s, table, pick[0]);
      SkipAll(s, table[1..], pick[1..]);
    }
  }

  /** Running the table in two parts is running it once. */
  lemma {:induction false} ApplyReplacementsAppend(s: string, a: seq<(string, string)>, b: seq<(string, string)>)
    requires PhraseTable(a) && PhraseTable(b)
    ensures PhraseTable(a + b)
    ensures ApplyReplacements(s, a + b) == ApplyReplacements(ApplyReplacements(s, a), b)
    decreases |a|
  {
    if a == [] {
      assert a + b == b;
    } else {
      assert (a + b)[0] == a[0] && (a + b)[1..] == a[1..] + b;
      ApplyReplacementsAppend(Replace(s, a[0].0, a[0].1), a[1..], b);
    }
  }

  lemma FilterKeepsTail(a: string, b: string)
    requires forall i :: 0 <= i < |a| ==> !IsAscii(a[i])
    requires AllAscii(b)
    ensures FilterAscii(a + b) == b
  {
    FilterAsciiAppend(a, b);
    FilterNonAscii(a);
    FilterAsciiIsAscii(b);
  }

  lemma FilterKeepsHead(a: string, b: string)
    requires forall i :: 0 <= i < |b| ==> !IsAscii(b[i])
    requires AllAscii(a)
    ensures FilterAscii(a + b) == a
  {
    FilterAsciiAppend(a, b);
    FilterNonAscii(b);
    FilterAsciiIsAscii(a);
  }

  /** Once the first `k` phrases leave `s` alone, the whole table acts as phrase `k` and what follows it. */
  lemma ReplaceFrom(s: string, t: seq<(string, string)>, k: nat, s1: string)
    requires PhraseTable(t) && k < |t|
    requires ApplyReplacements(s, t[..k]) == s
    requires Replace(s, t[k].0, t[k].1) == s1
    ensures ApplyReplacements(s, t) == ApplyReplacements(s1, t[k + 1..])
  {
    var u := [t[k]] + t[k + 1..];
    assert t == t[..k] + u;
    ApplyReplacementsAppend(s, t[..k], u);
    assert u[0] == t[k] && u[1..] == t[k + 1..];
  }

  // The two status phrases below are passed in as parameters equal to literals, so that the
  // verifier reasons about them step by step instead of evaluating the whole table at once.

  lemma ConnectedUntouched(s: string)
    requires s == "蓝牙已连接"
    ensures ApplyReplacements(s, Replacements[..2]) == s
  {
    ReplacementsArePhrases();
    SkipAll(s, Replacements[..2], [0, 2]);
  }

  lemma ReplaceConnected(s: string, s1: string)
    requires s == "蓝牙已连接" && s1 == "蓝牙Connected"
    ensures Replace(s, "已连接", "Connected") == s1
  {
    var p := "已连接";
    assert s[0] != p[0] && s[1..][0] != p[0] && s[2..] == p;
    assert s[2..][|p|..] == [];
    assert Replace(s[2..], p, "Connected") == "Connected";
    assert Replace(s[1..], p, "Connected") == [s[1]] + Replace(s[2..], p, "Connected");
  }

  lemma ConnectedRest(s1: string)
    requires s1 == "蓝牙Connected"
    ensures ApplyReplacements(s1, Replacements[3..]) == s1
  {
    ReplacementsArePhrases();
    SkipAll(s1, Replacements[3..], [2, 2, 0, 0, 0, 0, 0, 0, 0]);
  }

  /**
   * The table's order matters: `已连接` is replaced before the longer `蓝牙已连接` can match, so the
   * connection status shows as `Connected`, not `BT Connected`.
   */
  lemma ConnectedStatus(s: string)
    requires s == "蓝牙已连接"
    ensures AsciiText(s) == "Connected"
  {
    var s1 := "蓝牙Connected";
    ConnectedReplaced(s, s1);
    ConnectedRest(s1);
    ConnectedFiltered(s1);
  }

  lemma ConnectedReplaced(s: string, s1: string)
    requires s == "蓝牙已连接" && s1 == "蓝牙Connected"
    ensures ApplyReplacements(s, Replacements) == ApplyReplacements(s1, Replacements[3..])
  {
    ConnectedUntouched(s);
    ReplaceConnected(s, s1);
    ReplacementsArePhrases();
    ReplaceFrom(s, Replacements, 2, s1);
  }

  lemma ConnectedFiltered(s1: string)
    requires s1 == "蓝牙Connected"
    ensures FilterAscii(s1) == "Connected"
  {
    assert s1 == "蓝牙" + "Connected";
    FilterKeepsTail("蓝牙", "Connected");
  }

  lemma ServoUntouched(s: string)
    requires s == "舵机1: 90°"
    ensures ApplyReplacements(s, Replacements[..6]) == s
  {
    ReplacementsArePhrases();
    SkipAll(s, Replacements[..6], [0, 0, 0, 0, 0, 0]);
  }

  lemma ReplaceServo(s: string, s1: string)
    requires s == "舵机1: 90°" && s1 == "Servo1: 90°"
    ensures Replace(s, "舵机", "Servo") == s1
  {
    assert "舵机" <= s && s[2..] == "1: 90°";
    ContainsChar("1: 90°", "舵机", 0);
    ReplaceAbsent("1: 90°", "舵机", "Servo");
  }

  lemma ServoRest(s1: string)
    requires s1 == "Servo1: 90°"
    ensures ApplyReplacements(s1, Replacements[7..]) == s1
  {
    ReplacementsArePhrases();
    SkipAll(s1, Replacements[7..], [0, 0, 0, 0, 0]);
  }

  /** The servo status line keeps its Latin replacement and loses its degree sign. */
  lemma ServoStatus(s: string)
    requires s == "舵机1: 90°"
    ensures AsciiText(s) == "Servo1: 90"
  {
    var s1 := "Servo1: 90°";
    ServoReplaced(s, s1);
    ServoRest(s1);
    ServoFiltered(s1);
  }

  lemma ServoReplaced(s: string, s1: string)
    requires s == "舵机1: 90°" && s1 == "Servo1: 90°"
    ensures ApplyReplacements(s, Replacements) == ApplyReplacements(s1, Replacements[7..])
  {
    ServoUntouched(s);
    ReplaceServo(s, s1);
    ReplacementsArePhrases();
    ReplaceFrom(s, Replacements, 6, s1);
  }

  lemma ServoFiltered(s1: string)
    requires s1 == "Servo1: 90°"
    ensures FilterAscii(s1) == "Servo1: 90"
  {
    assert s1 == "Servo1: 90" + "°";
    FilterKeepsHead("Servo1: 90", "°");
  }
}
