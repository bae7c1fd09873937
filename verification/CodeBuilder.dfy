/** Deriving a stable code from a path: lower-case it, turn every run of other characters into a dot, trim the dots. */
module CodeBuilder {

  function LowerChar(c: char): char {
    if 'A' <= c <= 'Z' then (c as int - 'A' as int + 'a' as int) as char else c
  }

  function Lower(s: string): string {
    if s == "" then "" else [LowerChar(s[0])] + Lower(s[1..])
  }

  predicate IsWordChar(c: char) {
    'a' <= c <= 'z' || '0' <= c <= '9'
  }

  /** Replaces each run of non-word characters by one dot; `inRun` says a run has just been replaced. */
  function Collapse(s: string, inRun: bool): string {
    if s == "" then ""
    else if IsWordChar(s[0]) then [s[0]] + Collapse(s[1..], false)
    else if inRun then Collapse(s[1..], true)
    else "." + Collapse(s[1..], true)
  }

  function TrimLeft(s: string): string {
    if s != "" && s[0] == '.' then TrimLeft(s[1..]) else s
  }

  function TrimRight(s: string): string {
    if s != "" && s[|s| - 1] == '.' then TrimRight(s[..|s| - 1]) else s
  }

  function BuildCode(path: string): string {
    TrimRight(TrimLeft(Collapse(Lower(path), false)))
  }

  /** Words of lower-case letters and digits with single dots between them. */
  predicate IsCode(s: string) {
    && (forall i :: 0 <= i < |s| ==> IsWordChar(s[i]) || s[i] == '.')
    && (forall i :: 0 < i < |s| ==> s[i - 1] != '.' || s[i] != '.')
    && (s != "" ==> s[0] != '.' && s[|s| - 1] != '.')
  }

  predicate SingleDots(s: string) {
    && (forall i :: 0 <= i < |s| ==> IsWordChar(s[i]) || s[i] == '.')
    && (forall i :: 0 < i < |s| ==> s[i - 1] != '.' || s[i] != '.')
  }

  function Closed(open: string): seq<string> {
    if open == "" then [] else [open]
  }

  /** The words still to come when `open` has been read of the current one. */
  function WordsFrom(s: string, open: string): seq<string>
    decreases |s|
  {
    if s == "" then Closed(open)
    else if IsWordChar(s[0]) then WordsFrom(s[1..], open + [s[0]])
    else Closed(open) + WordsFrom(s[1..], "")
  }

  /** The maximal runs of lower-case letters and digits of a string, in order. */
  function Words(s: string): seq<string> {
    WordsFrom(s, "")
  }

  function Join(words: seq<string>): string {
    if words == [] then "" else if |words| == 1 then words[0] else words[0] + "." + Join(words[1..])
  }

  lemma {:induction false} CollapseDots(s: string, inRun: bool)
    ensures SingleDots(Collapse(s, inRun))
    ensures inRun && Collapse(s, inRun) != "" ==> Collapse(s, inRun)[0] != '.'
  {
    if s == "" {
    } else {
      CollapseDots(s[1..], false);
      CollapseDots(s[1..], true);
    }
  }

  lemma {:induction false} CollapseKeepsWords(s: string, inRun: bool, open: string)
    requires inRun ==> open == ""
    ensures WordsFrom(Collapse(s, inRun), open) == WordsFrom(s, open)
    decreases |s|
  {
    if s == "" {
    } else {
      var rest := s[1..];
      if IsWordChar(s[0]) {
        CollapseKeepsWords(rest, false, open + [s[0]]);
        assert ([s[0]] + Collapse(rest, false))[1..] == Collapse(rest, false);
      } else {
        CollapseKeepsWords(rest, true, "");
        assert ("." + Collapse(rest, true))[1..] == Collapse(rest, true);
      }
    }
  }

  lemma {:induction false} CollapseFixed(s: string, inRun: bool)
    requires SingleDots(s) && (inRun && s != "" ==> s[0] != '.')
    ensures Collapse(s, inRun) == s
  {
    if s == "" {
    } else {
      var rest := s[1..];
      assert forall i :: 0 <= i < |rest| ==> rest[i] == s[i + 1];
      assert s == [s[0]] + rest;
      CollapseFixed(rest, s[0] == '.');
    }
  }

  lemma {:induction false} TrimLeftShape(s: string)
    requires SingleDots(s)
    ensures SingleDots(TrimLeft(s)) && Words(TrimLeft(s)) == Words(s)
    ensures TrimLeft(s) != "" ==> TrimLeft(s)[0] != '.'
  {
    if s != "" && s[0] == '.' {
      assert forall i :: 0 <= i < |s[1..]| ==> s[1..][i] == s[i + 1];
      TrimLeftShape(s[1..]);
    }
  }

  lemma {:induction false} DotAtEnd(s: string, open: string)
    ensures WordsFrom(s + ".", open) == WordsFrom(s, open)
    decreases |s|
  {
    if s == "" {
      assert "."[1..] == "";
    } else {
      assert (s + ".")[1..] == s[1..] + ".";
      DotAtEnd(s[1..], if IsWordChar(s[0]) then open + [s[0]] else "");
    }
  }

  lemma {:induction false} TrimRightShape(s: string)
    requires SingleDots(s) && (s != "" ==> s[0] != '.')
    ensures IsCode(TrimRight(s)) && Words(TrimRight(s)) == Words(s)
  {
    if s != "" && s[|s| - 1] == '.' {
      TrimRightShape(s[..|s| - 1]);
      assert s == s[..|s| - 1] + ".";
      DotAtEnd(s[..|s| - 1], "");
    }
  }

  lemma CodeTail(s: string)
    requires SingleDots(s) && s != "" && s[|s| - 1] != '.'
    ensures s == [s[0]] + s[1..] && SingleDots(s[1..])
    ensures s[1..] != "" ==> s[1..][|s[1..]| - 1] != '.'
    ensures s[0] == '.' ==> s[1..] != "" && s[1..][0] != '.'
  {
    var rest := s[1..];
    assert forall i :: 0 <= i < |rest| ==> rest[i] == s[i + 1];
  }

  lemma JoinCons(word: string, words: seq<string>)
    requires words != []
    ensures Join([word] + words) == word + "." + Join(words)
  {
    assert ([word] + words)[1..] == words;
  }

  lemma {:induction false} CodeIsJoined(s: string, open: string)
    requires SingleDots(s) && (s != "" ==> s[|s| - 1] != '.')
    requires open == "" && s != "" ==> s[0] != '.'
    ensures Join(WordsFrom(s, open)) == open + s
    decreases |s|
  {
    if s == "" {
    } else {
      var rest := s[1..];
      CodeTail(s);
      if s[0] == '.' {
        CodeIsJoined(rest, "");
        JoinCons(open, Words(rest));
      } else {
        CodeIsJoined(rest, open + [s[0]]);
      }
    }
  }

  lemma BuildCodeShape(path: string)
    ensures IsCode(BuildCode(path)) && Words(BuildCode(path)) == Words(Lower(path))
  {
    CollapseDots(Lower(path), false);
    CollapseKeepsWords(Lower(path), false, "");
    TrimLeftShape(Collapse(Lower(path), false));
    TrimRightShape(TrimLeft(Collapse(Lower(path), false)));
  }

  /** Whatever the path, the code is its lower-cased words joined by single dots, and is well-formed. */
  lemma BuildCodeJoinsWords(path: string)
    ensures BuildCode(path) == Join(Words(Lower(path)))
    ensures IsCode(BuildCode(path))
  {
    BuildCodeShape(path);
    CodeIsJoined(BuildCode(path), "");
  }

  lemma {:induction false} LowerFixed(s: string)
    requires forall i :: 0 <= i < |s| ==> IsWordChar(s[i]) || s[i] == '.'
    ensures Lower(s) == s
  {
    if s == "" {
    } else {
      LowerFixed(s[1..]);
    }
  }

  /** A path is its own code exactly when it already is one; in particular building twice changes nothing. */
  lemma BuildCodeFixedExactly(path: string)
    ensures BuildCode(path) == path <==> IsCode(path)
    ensures BuildCode(BuildCode(path)) == BuildCode(path)
  {
    BuildCodeJoinsWords(path);
    CodeIsFixed(BuildCode(path));
    if IsCode(path) { CodeIsFixed(path); }
  }

  lemma CodeIsFixed(code: string)
    requires IsCode(code)
    ensures BuildCode(code) == code
  {
    LowerFixed(code);
    CollapseFixed(code, false);
  }

  /** Lower-casing keeps every character but the capital letters, which move to the small ones. */
  lemma {:induction false} LowerAt(s: string, i: nat)
    requires i < |s|
    ensures |Lower(s)| == |s|
    ensures Lower(s)[i] == if 'A' <= s[i] <= 'Z' then (s[i] as int + 32) as char else s[i]
  {
    if |s| == 1 {
    } else {
      LowerAt(s[1..], if i == 0 then 0 else i - 1);
    }
  }

  /** Words are not empty and consist of small letters and digits. */
  lemma {:induction false} WordsOfLetters(s: string, open: string)
    requires forall c :: c in open ==> 'a' <= c <= 'z' || '0' <= c <= '9'
    ensures forall w :: w in WordsFrom(s, open) ==>
      w != "" && forall c :: c in w ==> 'a' <= c <= 'z' || '0' <= c <= '9'
    decreases |s|
  {
    if s == "" {
    } else {
      WordsOfLetters(s[1..], if IsWordChar(s[0]) then open + [s[0]] else "");
    }
  }

  // ------------------------------------------------------------ permission codes

  /** buildPermissionCode: the same rewriting of action and path. */
  function BuildPermissionCode(action: string, path: string): string {
    BuildCode(action + "." + path)
  }

  lemma {:induction false} LowerConcat(a: string, b: string)
    ensures Lower(a + b) == Lower(a) + Lower(b)
  {
    if a == "" {
      assert a + b == b;
    } else {
      assert (a + b)[1..] == a[1..] + b;
      LowerConcat(a[1..], b);
    }
  }

  lemma {:induction false} WordsAroundDot(a: string, b: string, open: string)
    ensures WordsFrom(a + ("." + b), open) == WordsFrom(a, open) + Words(b)
    decreases |a|
  {
    var all := a + ("." + b);
    if a == "" {
      assert all == "." + b && all[1..] == b;
    } else {
      assert all[0] == a[0] && all[1..] == a[1..] + ("." + b);
      WordsAroundDot(a[1..], b, if IsWordChar(a[0]) then open + [a[0]] else "");
    }
  }

  /** A permission code is the words of the action followed by those of the path, whatever separates them. */
  lemma PermissionCodeJoinsWords(action: string, path: string)
    ensures BuildPermissionCode(action, path) == Join(Words(Lower(action)) + Words(Lower(path)))
  {
    assert action + "." + path == action + ("." + path);
    LowerConcat(action, "." + path);
    assert Lower("." + path) == "." + Lower(path) by { assert ("." + path)[1..] == path; }
    WordsAroundDot(Lower(action), Lower(path), "");
    BuildCodeJoinsWords(action + "." + path);
  }
}
