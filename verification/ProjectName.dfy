/** What _derive_project_id of src/causure/onboarding.py keeps of a name: its
    words, with single hyphens between them. */
module ProjectName {
  import opened Vocabulary
  import opened ProjectFile

  /** The maximal runs of lower-case letters and digits. */
  ghost function Words(s: string): (words: seq<string>)
    ensures forall i :: 0 <= i < |words| ==> words[i] != "" && forall k :: 0 <= k < |words[i]| ==> IsIdChar(words[i][k])
    ensures s != "" && (IsIdChar(s[0]) || IsIdChar(s[|s| - 1])) ==> words != []
  {
    if s == "" then []
    else
      var words, n := Words(s[..|s| - 1]), |s| - 1;
      if !IsIdChar(s[n]) then words
      else if n > 0 && IsIdChar(s[n - 1]) then words[..|words| - 1] + [words[|words| - 1] + [s[n]]]
      else words + [[s[n]]]
  }

  ghost function Hyphenate(words: seq<string>): string {
    if words == [] then ""
    else if |words| == 1 then words[0]
    else Hyphenate(words[..|words| - 1]) + "-" + words[|words| - 1]
  }

  lemma HyphenateSnoc(words: seq<string>, word: string)
    ensures Hyphenate(words + [word]) == if words == [] then word else Hyphenate(words) + "-" + word
  {
    assert (words + [word])[..|words|] == words;
  }

  lemma HyphenateGrows(front: seq<string>, last: string, c: char)
    ensures Hyphenate(front + [last + [c]]) == Hyphenate(front + [last]) + [c]
  {
    hide Hyphenate;
    HyphenateSnoc(front, last + [c]);
    HyphenateSnoc(front, last);
    if front != [] {
      Associate(Hyphenate(front) + "-", last, c);
    }
  }

  lemma Associate(s: string, t: string, c: char)
    ensures s + (t + [c]) == (s + t) + [c]
  {
  }

  predicate Opens(s: string) { s != "" && !IsIdChar(s[0]) }

  predicate Ends(s: string) { s != "" && !IsIdChar(s[|s| - 1]) }

  function Hyphen(wanted: bool): string { if wanted then "-" else "" }

  /** The hyphenated form of a text with these words. */
  ghost predicate Shows(h: string, s: string, words: seq<string>) {
    h == if words == [] then Hyphen(s != "") else Hyphen(Opens(s)) + Hyphenate(words) + Hyphen(Ends(s))
  }

  lemma WordGrows(h: string, front: string, words: seq<string>, c: char)
    requires Shows(h, front, words) && words != [] && front != "" && IsIdChar(front[|front| - 1]) && IsIdChar(c)
    ensures Shows(h + [c], front + [c], words[..|words| - 1] + [words[|words| - 1] + [c]])
  {
    hide Hyphenate;
    HyphenateGrows(words[..|words| - 1], words[|words| - 1], c);
    assert words[..|words| - 1] + [words[|words| - 1]] == words;
    var open, full := Hyphen(Opens(front)), Hyphenate(words);
    assert open + full + "" + [c] == open + (full + [c]) + "";
  }

  lemma WordBegins(h: string, front: string, words: seq<string>, c: char)
    requires Shows(h, front, words) && (front == "" || Ends(front)) && IsIdChar(c)
    requires if words == [] then front == "" || Opens(front) else front != ""
    ensures Shows(h + [c], front + [c], words + [[c]])
  {
    hide Hyphenate;
    HyphenateSnoc(words, [c]);
    var open, full := Hyphen(Opens(front)), Hyphenate(words);
    if words == [] {
      assert open + [c] + "" == open + [c];
    } else {
      assert open + full + "-" + [c] == open + (full + "-" + [c]) + "";
    }
  }

  lemma WordEnds(h: string, front: string, words: seq<string>, c: char)
    requires Shows(h, front, words) && !IsIdChar(c)
    requires if words == [] then front == "" || Ends(front) else front != ""
    ensures Shows(if front != "" && Ends(front) then h else h + "-", front + [c], words)
  {
    hide Hyphenate;
    var open, full := Hyphen(Opens(front)), Hyphenate(words);
    assert open + full + "" + "-" == open + full + "-";
  }

  lemma LastShows(h: string, s: string, words: seq<string>)
    requires Shows(h, s, words) && (words != [] ==> Hyphenate(words) != "" && Hyphenate(words)[|Hyphenate(words)| - 1] != '-')
    requires if words == [] then s == "" || Ends(s) else s != ""
    ensures h != "" ==> (h[|h| - 1] == '-' <==> Ends(s))
    ensures h == "" <==> s == ""
  {
    hide Hyphenate;
  }

  /** Hyphenating a name keeps its words, and a hyphen where it begins or ends with none. */
  lemma {:induction false} HyphenatedWords(s: string)
    ensures Shows(Hyphenated(s), s, Words(s))
  {
    if s != "" {
      var n := |s| - 1;
      var front, c, words, h := s[..n], s[n], Words(s[..n]), Hyphenated(s[..n]);
      HyphenatedWords(front);
      assert s == front + [c];
      assert n > 0 ==> front[n - 1] == s[n - 1];
      if words != [] { SingleHyphens(words); }
      LastShows(h, front, words);
      if IsIdChar(c) {
        assert Hyphenated(s) == h + [c];
        if n > 0 && IsIdChar(s[n - 1]) {
          WordGrows(h, front, words, c);
        } else {
          WordBegins(h, front, words, c);
        }
      } else {
        assert Hyphenated(s) == if front != "" && Ends(front) then h else h + "-";
        WordEnds(h, front, words, c);
      }
    }
  }

  /** Words joined by hyphens begin and end with words, and have no two hyphens in a row. */
  lemma {:induction false} SingleHyphens(words: seq<string>)
    requires words != []
    requires forall i :: 0 <= i < |words| ==> words[i] != "" && forall k :: 0 <= k < |words[i]| ==> IsIdChar(words[i][k])
    ensures var s := Hyphenate(words);
            && s != "" && s[0] != '-' && s[|s| - 1] != '-'
            && forall i :: 0 <= i < |s| - 1 ==> !(s[i] == '-' && s[i + 1] == '-')
  {
    if |words| > 1 {
      var front, last := words[..|words| - 1], words[|words| - 1];
      SingleHyphens(front);
      var s, t := Hyphenate(words), Hyphenate(front);
      assert s == t + "-" + last;
      forall i | 0 <= i < |s| - 1 ensures !(s[i] == '-' && s[i + 1] == '-') {
        if i > |t| { assert s[i] == last[i - |t| - 1]; }
      }
    }
  }

  lemma TrimmedLeft(s: string, x: string)
    requires x != "" && x[0] != '-' && (s == x || s == "-" + x)
    ensures TrimLeft(s) == x
  {
    if s != x { assert s[1..] == x; }
  }

  lemma TrimmedRight(s: string, x: string)
    requires x != "" && x[|x| - 1] != '-' && (s == x || s == x + "-")
    ensures TrimRight(s) == x
  {
    if s != x { assert s[..|s| - 1] == x; }
  }

  lemma CandidateIsWords(name: string)
    ensures TrimRight(TrimLeft(Hyphenated(name))) == Hyphenate(Words(name))
  {
    hide Hyphenated, Words, Hyphenate, TrimLeft, TrimRight;
    var words := Words(name);
    var full := Hyphenate(words);
    HyphenatedWords(name);
    if words == [] {
      NothingLeft(name);
    } else {
      SingleHyphens(words);
      var open, end := Hyphen(Opens(name)), Hyphen(Ends(name));
      var tail := full + end;
      assert open + full + end == open + tail;
      TrimmedLeft(Hyphenated(name), tail);
      TrimmedRight(tail, full);
    }
  }

  lemma NothingLeft(name: string)
    requires Words(name) == [] && Hyphenated(name) == Hyphen(name != "")
    ensures TrimRight(TrimLeft(Hyphenated(name))) == Hyphenate(Words(name))
  {
  }

  /** The derived identifier is the words of the name with single hyphens between
      them: the first 64 characters, or 63 if the last of them is a hyphen; a
      name without words gets the default. */
  lemma DerivedIdIsItsWords(name: string)
    ensures var full := Hyphenate(Words(name));
            DerivedId(name) == if Words(name) == [] then "causure-project"
                               else if |full| <= 64 then full
                               else if full[63] == '-' then full[..63] else full[..64]
  {
    hide Hyphenated, TrimLeft, TrimRight, Words, Hyphenate;
    var words := Words(name);
    var full := Hyphenate(words);
    CandidateIsWords(name);
    if words == [] {
      EmptyStaysEmpty();
    } else {
      SingleHyphens(words);
      if |full| <= 64 {
        TrimmedRight(full, full);
      } else if full[63] == '-' {
        assert full[..64] == full[..63] + "-" && full[62] != '-';
        TrimmedRight(full[..64], full[..63]);
      } else {
        TrimmedRight(full[..64], full[..64]);
      }
    }
  }

  lemma EmptyStaysEmpty()
    ensures Hyphenate([]) == "" && TrimRight("") == ""
  {
  }
}
