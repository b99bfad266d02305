/**
 * The tokenizer of `_sweepTweets`: `text.match(/\S+/g)` splits a tweet into the
 * maximal runs of non-whitespace characters; the words whose first character is
 * '#' are kept, with the '#' removed. When the text holds no non-whitespace
 * character `match` returns `null` and the following `.forEach` throws; that case
 * is the `BlankText` error here.
 */
module Tokenizer {
  import opened Types

  /** JavaScript's `\s` class: ASCII whitespace, the Unicode space separators,
      the line and paragraph separators and the byte-order mark. */
  predicate IsWhitespace(c: char)
  {
    || c == ' '
    || '\t' <= c <= '\r'
    || c == '\U{00A0}' || c == '\U{1680}'
    || '\U{2000}' <= c <= '\U{200A}'
    || c == '\U{2028}' || c == '\U{2029}' || c == '\U{202F}' || c == '\U{205F}'
    || c == '\U{3000}' || c == '\U{FEFF}'
  }

  predicate Blank(s: string)
  {
    forall i :: 0 <= i < |s| ==> IsWhitespace(s[i])
  }

  /** A word as `\S+` matches it: non-empty and free of whitespace. */
  predicate IsWord(w: string)
  {
    w != [] && forall i :: 0 <= i < |w| ==> !IsWhitespace(w[i])
  }

  /** A word ends here: the pending run of non-whitespace, if there is one. */
  function Flush(cur: string): seq<string>
  {
    if cur == [] then [] else [cur]
  }

  /**
   * The matches of `/\S+/g` in `s`, in text order, when the run `cur` of
   * non-whitespace characters just before `s` is still pending.
   */
  function Scan(s: string, cur: string): seq<string>
    decreases |s|
  {
    if s == [] then Flush(cur)
    else if IsWhitespace(s[0]) then Flush(cur) + Scan(s[1..], [])
    else Scan(s[1..], cur + [s[0]])
  }

  /** The matches of `/\S+/g`: the maximal runs of non-whitespace characters, in text order. */
  function Words(s: string): seq<string>
  {
    Scan(s, [])
  }

  /** `word.charAt(0) === '#'` */
  predicate IsHashtagWord(w: string)
  {
    |w| > 0 && w[0] == '#'
  }

  /** The hashtag words of `ws`, in order, each with its leading '#' removed (`word.substring(1)`). */
  function TagsOf(ws: seq<string>): (tags: seq<string>)
    ensures |tags| <= |ws|
  {
    if ws == [] then []
    else (if IsHashtagWord(ws[0]) then [ws[0][1..]] else []) + TagsOf(ws[1..])
  }

  datatype TweetError = BlankText

  /** The hashtags `_sweepTweets` passes on for one tweet, or the throw on a blank text. */
  function Hashtags(text: string): (r: Result<seq<string>, TweetError>)
    ensures r.Failure? <==> Blank(text)
  {
    var ws := Words(text);
    if ws == [] then (WordsEmptyIffBlank(text); Failure(BlankText))
    else (WordsEmptyIffBlank(text); Success(TagsOf(ws)))
  }

  /**
   * A text laid out from its words: each word `ws[i]` followed by its own
   * whitespace run `seps[i]`. Behind a blank lead, every text is a layout of
   * its words (see `Spaced`).
   */
  function Layout(ws: seq<string>, seps: seq<string>): string
    requires |seps| == |ws|
    decreases |ws|
  {
    if ws == [] then [] else ws[0] + seps[0] + Layout(ws[1..], seps[1..])
  }

  /** The runs between words are non-empty whitespace; the run after the last word may be empty. */
  predicate Spaced(ws: seq<string>, seps: seq<string>)
  {
    && |seps| == |ws|
    && (forall i :: 0 <= i < |ws| ==> IsWord(ws[i]))
    && (forall i :: 0 <= i < |seps| ==> Blank(seps[i]))
    && (forall i :: 0 <= i < |seps| - 1 ==> seps[i] != [])
  }

  // ---------------------------------------------------------------- lemmas

  predicate NoSpace(w: string)
  {
    forall i :: 0 <= i < |w| ==> !IsWhitespace(w[i])
  }

  /** Every match is a non-empty run of non-whitespace characters. */
  lemma {:induction false} ScanWords(s: string, cur: string)
    requires NoSpace(cur)
    ensures forall i :: 0 <= i < |Scan(s, cur)| ==> IsWord(Scan(s, cur)[i])
    decreases |s|
  {
    if s != [] {
      if IsWhitespace(s[0]) {
        ScanWords(s[1..], []);
      } else {
        var cur' := cur + [s[0]];
        assert NoSpace(cur') by {
          forall i | 0 <= i < |cur'| ensures !IsWhitespace(cur'[i]) {
            if i < |cur| { assert cur'[i] == cur[i]; }
          }
        }
        ScanWords(s[1..], cur');
      }
    }
  }

  lemma WordsAreWords(s: string)
    ensures forall i :: 0 <= i < |Words(s)| ==> IsWord(Words(s)[i])
  {
    ScanWords(s, []);
  }

  /** Nothing is matched exactly when nothing is pending and the rest is blank. */
  lemma {:induction false} ScanEmptyIffBlank(s: string, cur: string)
    ensures Scan(s, cur) == [] <==> cur == [] && Blank(s)
    decreases |s|
  {
    if s != [] {
      ScanEmptyIffBlank(s[1..], if IsWhitespace(s[0]) then [] else cur + [s[0]]);
      if Blank(s) {
        assert Blank(s[1..]) by {
          forall i | 0 <= i < |s[1..]| ensures IsWhitespace(s[1..][i]) {
            assert s[1..][i] == s[i + 1];
          }
        }
      }
      if IsWhitespace(s[0]) && Blank(s[1..]) {
        forall i | 0 <= i < |s| ensures IsWhitespace(s[i]) {
          if i > 0 { assert s[i] == s[1..][i - 1]; }
        }
      }
    }
  }

  /** `match` finds no word exactly when the text is blank. */
  lemma WordsEmptyIffBlank(s: string)
    ensures Words(s) == [] <==> Blank(s)
  {
    ScanEmptyIffBlank(s, []);
  }

  /** Non-whitespace characters extend the pending word. */
  lemma {:induction false} ScanThroughWord(w: string, rest: string, cur: string)
    requires NoSpace(w)
    ensures Scan(w + rest, cur) == Scan(rest, cur + w)
    decreases |w|
  {
    if w == [] {
      assert w + rest == rest && cur + w == cur;
    } else {
      assert (w + rest)[0] == w[0];
      assert (w + rest)[1..] == w[1..] + rest;
      assert NoSpace(w[1..]) by {
        forall i | 0 <= i < |w[1..]| ensures !IsWhitespace(w[1..][i]) {
          assert w[1..][i] == w[i + 1];
        }
      }
      ScanThroughWord(w[1..], rest, cur + [w[0]]);
      assert (cur + [w[0]]) + w[1..] == cur + w;
    }
  }

  /** Whitespace with nothing pending is skipped. */
  lemma {:induction false} ScanThroughBlank(b: string, rest: string)
    requires Blank(b)
    ensures Scan(b + rest, []) == Scan(rest, [])
    decreases |b|
  {
    if b == [] {
      assert b + rest == rest;
    } else {
      assert (b + rest)[0] == b[0];
      assert (b + rest)[1..] == b[1..] + rest;
      assert Blank(b[1..]) by {
        forall i | 0 <= i < |b[1..]| ensures IsWhitespace(b[1..][i]) {
          assert b[1..][i] == b[i + 1];
        }
      }
      ScanThroughBlank(b[1..], rest);
    }
  }

  /** A word and the whitespace run behind it end that word; an empty run ends the text. */
  lemma ScanWordThenRun(w: string, sep: string, rest: string)
    requires IsWord(w) && Blank(sep)
    requires sep == [] ==> rest == []
    ensures Scan(w + (sep + rest), []) == [w] + Scan(rest, [])
  {
    ScanThroughWord(w, sep + rest, []);
    assert [] + w == w;
    if sep == [] {
      assert sep + rest == [];
    } else {
      assert (sep + rest)[0] == sep[0];
      assert (sep + rest)[1..] == sep[1..] + rest;
      assert Blank(sep[1..]) by {
        forall i | 0 <= i < |sep[1..]| ensures IsWhitespace(sep[1..][i]) {
          assert sep[1..][i] == sep[i + 1];
        }
      }
      assert Scan(sep + rest, w) == [w] + Scan(sep[1..] + rest, []);
      ScanThroughBlank(sep[1..], rest);
    }
  }

  lemma SpacedTail(ws: seq<string>, seps: seq<string>)
    requires Spaced(ws, seps) && ws != []
    ensures Spaced(ws[1..], seps[1..])
  {
    forall i | 0 <= i < |seps[1..]| ensures Blank(seps[1..][i]) {
      assert seps[1..][i] == seps[i + 1];
    }
  }

  /** Scanning a layout from a word boundary gives back its words. */
  lemma {:induction false} ScanLayout(ws: seq<string>, seps: seq<string>)
    requires Spaced(ws, seps)
    ensures Scan(Layout(ws, seps), []) == ws
    decreases |ws|
  {
    if ws != [] {
      var w, sep := ws[0], seps[0];
      var rest := Layout(ws[1..], seps[1..]);
      assert Layout(ws, seps) == w + (sep + rest);
      assert IsWord(w) && Blank(sep);
      assert sep == [] ==> |ws| == 1 && rest == [];
      ScanWordThenRun(w, sep, rest);
      SpacedTail(ws, seps);
      ScanLayout(ws[1..], seps[1..]);
      assert ws == [w] + ws[1..];
    }
  }

  /**
   * `Words` inverts `Layout`: whatever whitespace leads, separates or trails
   * the words, splitting the text gives exactly those words back.
   */
  lemma WordsOfLayout(lead: string, ws: seq<string>, seps: seq<string>)
    requires Blank(lead) && Spaced(ws, seps)
    ensures Words(lead + Layout(ws, seps)) == ws
  {
    ScanThroughBlank(lead, Layout(ws, seps));
    ScanLayout(ws, seps);
  }

  /** Filtering and stripping distributes over concatenation: tags keep text order. */
  lemma {:induction false} TagsOfAppend(a: seq<string>, b: seq<string>)
    ensures TagsOf(a + b) == TagsOf(a) + TagsOf(b)
  {
    if a == [] {
      assert a + b == b;
    } else {
      var head := if IsHashtagWord(a[0]) then [a[0][1..]] else [];
      assert (a + b)[0] == a[0];
      assert (a + b)[1..] == a[1..] + b;
      assert TagsOf(a + b) == head + TagsOf(a[1..] + b);
      TagsOfAppend(a[1..], b);
      assert TagsOf(a) == head + TagsOf(a[1..]);
    }
  }

  /** A tag comes out exactly when some word is that tag behind a '#'. */
  lemma {:induction false} TagsOfMember(ws: seq<string>, t: string)
    ensures t in TagsOf(ws) <==> exists i :: 0 <= i < |ws| && IsHashtagWord(ws[i]) && ws[i][1..] == t
  {
    if ws != [] {
      TagsOfMember(ws[1..], t);
      if t in TagsOf(ws[1..]) {
        var i :| 0 <= i < |ws[1..]| && IsHashtagWord(ws[1..][i]) && ws[1..][i][1..] == t;
        assert IsHashtagWord(ws[i + 1]) && ws[i + 1][1..] == t;
      }
      if exists i :: 0 <= i < |ws| && IsHashtagWord(ws[i]) && ws[i][1..] == t {
        var i :| 0 <= i < |ws| && IsHashtagWord(ws[i]) && ws[i][1..] == t;
        if i > 0 {
          assert IsHashtagWord(ws[1..][i - 1]) && ws[1..][i - 1][1..] == t;
        }
      }
    }
  }

  /**
   * The hashtags of any text: the words of its layout that start with '#',
   * stripped of it, in text order, repeats kept; a text without words throws.
   */
  lemma HashtagsOfLayout(lead: string, ws: seq<string>, seps: seq<string>)
    requires Blank(lead) && Spaced(ws, seps)
    ensures Hashtags(lead + Layout(ws, seps)) == if ws == [] then Failure(BlankText) else Success(TagsOf(ws))
  {
    WordsOfLayout(lead, ws, seps);
  }

  /** "#hiking great day" splits into its three words. */
  lemma WordsExample(text: string)
    requires text == "#hiking great day"
    ensures Words(text) == ["#hiking", "great", "day"]
  {
    var w1, w2, w3 := "#hiking", "great", "day";
    assert IsWord(w1) && IsWord(w2) && IsWord(w3);
    assert Blank(" ") && Blank("");
    LayoutOfTwo(w2, " ", w3, "");
    assert [w1, w2, w3][1..] == [w2, w3] && [" ", " ", ""][1..] == [" ", ""];
    assert Layout([w1, w2, w3], [" ", " ", ""]) == w1 + " " + (w2 + " " + w3 + "");
    assert "" + Layout([w1, w2, w3], [" ", " ", ""]) == text;
    WordsOfLayout("", [w1, w2, w3], [" ", " ", ""]);
  }

  /** A tweet such as "#hiking great day" yields the single hashtag "hiking". */
  lemma HashtagsExample(text: string)
    requires text == "#hiking great day"
    ensures Hashtags(text) == Success(["hiking"])
  {
    WordsExample(text);
    var ws := ["#hiking", "great", "day"];
    assert TagsOf(ws) == ["hiking"] by {
      assert TagsOf(ws[2..]) == [];
      assert TagsOf(ws[1..]) == [];
    }
  }

  lemma HashtagsExampleRunning(text: string)
    requires text == "#running fast"
    ensures Hashtags(text) == Success(["running"])
  {
    var ws, seps := ["#running", "fast"], [" ", ""];
    assert IsWord(ws[0]) && IsWord(ws[1]);
    assert Blank(seps[0]) && Blank(seps[1]);
    assert "" + Layout(ws, seps) == text by {
      assert Layout(ws[2..], seps[2..]) == "";
      assert Layout(ws[1..], seps[1..]) == "fast";
    }
    HashtagsOfLayout("", ws, seps);
    assert TagsOf(ws) == ["running"] by { assert TagsOf(ws[1..]) == []; }
  }

  lemma HashtagsExampleRepeated(text: string)
    requires text == "#hiking #hiking"
    ensures Hashtags(text) == Success(["hiking", "hiking"])
  {
    var vs, seps := ["#hiking", "#hiking"], [" ", ""];
    assert IsWord(vs[0]) && IsWord(vs[1]);
    assert Blank(seps[0]) && Blank(seps[1]);
    assert "" + Layout(vs, seps) == text by {
      assert Layout(vs[2..], seps[2..]) == "";
      assert Layout(vs[1..], seps[1..]) == "#hiking";
    }
    HashtagsOfLayout("", vs, seps);
    assert TagsOf(vs) == ["hiking", "hiking"] by {
      assert vs[0][1..] == "hiking";
      assert vs[1..] == ["#hiking"];
      assert TagsOf(vs[1..][1..]) == [];
      assert TagsOf(vs[1..]) == ["hiking"];
    }
  }

  /** Two words, each behind its own run. */
  lemma LayoutOfTwo(w1: string, s1: string, w2: string, s2: string)
    ensures Layout([w1, w2], [s1, s2]) == w1 + s1 + w2 + s2
  {
    var none: seq<string> := [];
    assert [w2][1..] == none && [s2][1..] == none;
    assert Layout([w2], [s2]) == w2 + s2 + [] == w2 + s2;
    assert [w1, w2][1..] == [w2] && [s1, s2][1..] == [s2];
    assert Layout([w1, w2], [s1, s2]) == w1 + s1 + (w2 + s2);
  }

  lemma SpacedTwo(w1: string, s1: string, w2: string, s2: string)
    requires IsWord(w1) && IsWord(w2) && Blank(s1) && Blank(s2) && s1 != []
    ensures Spaced([w1, w2], [s1, s2])
  {
  }

  /** Leading, doubled and trailing whitespace only separate words. */
  lemma WordsExampleSpacing(text: string)
    requires text == "\n#hiking  #mountain\t"
    ensures Words(text) == ["#hiking", "#mountain"]
  {
    var w1, w2 := "#hiking", "#mountain";
    assert IsWord(w1) && IsWord(w2);
    assert Blank("\n") && Blank("  ") && Blank("\t");
    SpacedTwo(w1, "  ", w2, "\t");
    LayoutOfTwo(w1, "  ", w2, "\t");
    assert "\n" + Layout([w1, w2], ["  ", "\t"]) == text;
    WordsOfLayout("\n", [w1, w2], ["  ", "\t"]);
  }

  /** ... so they do not change the hashtags. */
  lemma HashtagsExampleSpacing(text: string)
    requires text == "\n#hiking  #mountain\t"
    ensures Hashtags(text) == Success(["hiking", "mountain"])
  {
    WordsExampleSpacing(text);
    var ws := ["#hiking", "#mountain"];
    assert TagsOf(ws) == ["hiking", "mountain"] by {
      assert ws[1..] == ["#mountain"] && TagsOf(ws[1..][1..]) == [];
    }
  }

  /** A text of whitespace only makes `match` return null, so the sweep throws. */
  lemma BlankExample(text: string)
    requires text == " \t\n"
    ensures Hashtags(text) == Failure(BlankText)
  {
    assert Blank(text);
  }
}
