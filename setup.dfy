/** The one helper of the packaging script: `comma_split`, which turns the
    comma-separated KEYWORDS, CLASSIFIERS and REQUIREMENTS constants into
    lists for the package metadata. */
module Setup {
  import opened PyStrings

  /** The REQUIREMENTS constant, with its trailing comma. */
  const Requirements: string := "click, "

  /** `comma_split(text)`: `[x.strip() for x in text.split(",")]`. */
  function CommaSplit(text: string): (r: seq<string>)
    ensures |r| == Count(text, ',') + 1
    ensures forall i | 0 <= i < |r| :: ',' !in r[i] && Stripped(r[i])
  {
    var parts := Split(text, ',');
    seq(|parts|, i requires 0 <= i < |parts| => Strip(parts[i]))
  }

  /** The segments that `comma_split` strips are exactly the input cut at
      its commas: joined back with commas they give the input. */
  lemma CommaSplitCutsAtCommas(text: string)
    ensures Join(Split(text, ','), ",") == text
    ensures forall i | 0 <= i < |Split(text, ',')| :: CommaSplit(text)[i] == Strip(Split(text, ',')[i])
  {
    JoinSplit(text, ',');
  }

  /** An input without commas gives a single element: the stripped input. */
  lemma CommaSplitNoComma(text: string)
    requires ',' !in text
    ensures CommaSplit(text) == [Strip(text)]
  {
    SplitNoSeparator(text, ',');
    var r := CommaSplit(text);
    assert |r| == 1 && r[0] == Strip(text);
  }

  /** The list that `", ".join` renders as `x[0], x[1], ...`, split at its
      commas: every element after the first gains the leading space. */
  function Spaced(xs: seq<string>): seq<string>
    requires |xs| >= 1
  {
    [xs[0]] + seq(|xs| - 1, i requires 0 <= i < |xs| - 1 => " " + xs[i + 1])
  }

  lemma {:induction false} JoinCommaSpace(xs: seq<string>)
    requires |xs| >= 1
    ensures Join(xs, ", ") == Join(Spaced(xs), ",")
  {
    if |xs| > 1 {
      JoinCommaSpace(xs[1..]);
      var ys := Spaced(xs);
      var zs := Spaced(xs[1..]);
      assert ys[1..] == [" " + zs[0]] + zs[1..];
      assert |zs| == 1 ==> Join(zs, ",") == zs[0];
      if |zs| > 1 {
        assert Join(ys[1..], ",") == " " + zs[0] + "," + Join(zs[1..], ",") by {
          assert ([" " + zs[0]] + zs[1..])[1..] == zs[1..];
        }
      }
    }
  }

  /** Separator-free segments joined by commas come back from
      `comma_split` as the segments' stripped forms. */
  lemma CommaSplitJoined(segs: seq<string>, ts: seq<string>)
    requires |segs| == |ts| >= 1
    requires forall i | 0 <= i < |segs| :: ',' !in segs[i] && Strip(segs[i]) == ts[i]
    ensures CommaSplit(Join(segs, ",")) == ts
  {
    SplitJoin(segs, ',');
  }

  /** Splitting a `", "`-joined list at its commas leaves segments that strip
      back to the list's elements. */
  lemma SpacedStripsBack(xs: seq<string>)
    requires |xs| >= 1
    requires forall i | 0 <= i < |xs| :: ',' !in xs[i] && Stripped(xs[i])
    ensures |Spaced(xs)| == |xs|
    ensures forall i | 0 <= i < |xs| :: ',' !in Spaced(xs)[i] && Strip(Spaced(xs)[i]) == xs[i]
  {
    forall i | 0 <= i < |xs| ensures ',' !in Spaced(xs)[i] && Strip(Spaced(xs)[i]) == xs[i] {
      SpacedElement(xs, i);
    }
  }

  lemma SpacedElement(xs: seq<string>, i: nat)
    requires i < |xs| && ',' !in xs[i] && Stripped(xs[i])
    ensures ',' !in Spaced(xs)[i] && Strip(Spaced(xs)[i]) == xs[i]
  {
    var y := Spaced(xs)[i];
    if i == 0 {
      assert y == xs[0];
      StripStripped(xs[0]);
    } else {
      assert y == " " + xs[i];
      StripAfterSpace(xs[i]);
    }
  }

  /** A list of comma-free, stripped strings survives `", ".join` followed by
      `comma_split`. */
  lemma CommaSplitOfJoined(xs: seq<string>)
    requires |xs| >= 1
    requires forall i | 0 <= i < |xs| :: ',' !in xs[i] && Stripped(xs[i])
    ensures CommaSplit(Join(xs, ", ")) == xs
  {
    JoinCommaSpace(xs);
    SpacedStripsBack(xs);
    CommaSplitJoined(Spaced(xs), xs);
  }

  /** Joining the result with ", " and splitting again gives the same list. */
  lemma CommaSplitRoundTrip(text: string)
    ensures CommaSplit(Join(CommaSplit(text), ", ")) == CommaSplit(text)
  {
    CommaSplitOfJoined(CommaSplit(text));
  }

  /** Empty tokens are kept: the empty input gives one empty element. */
  lemma CommaSplitEmpty()
    ensures CommaSplit("") == [""]
  {
  }

  /** Two comma-free segments joined by one comma split back into the two. */
  lemma SplitTwo(x: string, y: string)
    requires ',' !in x && ',' !in y
    ensures Split(x + [','] + y, ',') == [x, y]
  {
    SplitAtSeparator(x, ',', y);
    SplitNoSeparator(y, ',');
  }

  /** An input with two segments gives their two stripped forms. */
  lemma CommaSplitTwo(text: string, x: string, y: string)
    requires Split(text, ',') == [x, y]
    ensures CommaSplit(text) == [Strip(x), Strip(y)]
  {
  }

  /** A trailing comma yields a trailing empty element. */
  lemma CommaSplitTrailingComma(a: string, blank: string)
    requires ',' !in a && Stripped(a)
    requires ',' !in blank && AllSpace(blank)
    ensures CommaSplit(a + [','] + blank) == [a, ""]
  {
    SplitTwo(a, blank);
    CommaSplitTwo(a + [','] + blank, a, blank);
    StripStripped(a);
    BlankStrips(blank);
  }

  /** The trailing comma of REQUIREMENTS gives a trailing empty requirement. */
  lemma InstallRequires()
    ensures CommaSplit(Requirements) == ["click", ""]
  {
    assert Requirements == "click" + [','] + " ";
    CommaSplitTrailingComma("click", " ");
  }

  /** A whitespace-only string strips to the empty string. */
  lemma BlankStrips(blank: string)
    requires AllSpace(blank)
    ensures Strip(blank) == ""
  {
    StripUnique(blank, "", "");
    assert blank + "" + "" == blank;
  }

  /** Whitespace-only segments collapse to empty strings; they are kept,
      not dropped. */
  lemma CommaSplitBlankSegment(text: string, i: nat)
    requires i < |Split(text, ',')| && AllSpace(Split(text, ',')[i])
    ensures CommaSplit(text)[i] == ""
  {
    BlankStrips(Split(text, ',')[i]);
  }
}
