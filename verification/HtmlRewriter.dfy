/**
 Rewriting absolute asset paths: the substitution of ((?:src|href)=["'])/(?!m/) by \1{prefix}/.
 `Rewrite` is the left-to-right scan of the regular-expression engine.
 */
module HtmlRewriter {

  /** Length of the attribute opening (src=" , src=' , href=" , href=') at the head of `s`, or 0. */
  function AttrLength(s: string): nat {
    if "src=\"" <= s || "src='" <= s then 5
    else if "href=\"" <= s || "href='" <= s then 6
    else 0
  }

  /** An attribute value that starts with a slash begins at the head of `s`. */
  predicate AbsolutePath(s: string) {
    var n := AttrLength(s);
    n > 0 && n < |s| && s[n] == '/'
  }

  /** The pattern matches at the head of `s`: an absolute path that does not start with /m/. */
  predicate Matches(s: string) {
    AbsolutePath(s) && !("m/" <= s[AttrLength(s) + 1..])
  }

  function Rewrite(html: string, prefix: string): string {
    if html == "" then ""
    else if Matches(html) then
      var n := AttrLength(html);
      html[..n] + prefix + "/" + Rewrite(html[n + 1..], prefix)
    else [html[0]] + Rewrite(html[1..], prefix)
  }

  /** The pattern matches nowhere in `s`. */
  predicate Settled(s: string) {
    s == "" || (!Matches(s) && Settled(s[1..]))
  }

  lemma {:induction false} SettledEverywhere(s: string)
    ensures Settled(s) <==> forall i :: 0 <= i <= |s| ==> !Matches(s[i..])
  {
    if s == "" {
      assert forall i :: 0 <= i <= |s| ==> s[i..] == "";
    } else {
      SettledEverywhere(s[1..]);
      assert s[0..] == s;
      assert forall i :: 0 <= i <= |s| - 1 ==> s[1..][i..] == s[i + 1..];
      forall i | 0 < i <= |s| ensures s[i..] == s[1..][i - 1..] {}
    }
  }

  /** A settled document is left alone. */
  lemma {:induction false} RewriteSettled(s: string, prefix: string)
    requires Settled(s)
    ensures Rewrite(s, prefix) == s
  {
    if s != "" { RewriteSettled(s[1..], prefix); }
  }

  /** Text without an 's' or an 'h' is a prefix of the output exactly when it is one of the input. */
  lemma {:induction false} PlainTextSurvives(w: string, s: string, prefix: string)
    requires 's' !in w && 'h' !in w
    ensures w <= Rewrite(s, prefix) <==> w <= s
    decreases w
  {
    if w != "" && s != "" {
      var out := Rewrite(s, prefix);
      if Matches(s) {
        assert out[0] == s[0] && (s[0] == 's' || s[0] == 'h');
        assert w[0] in w;
      } else {
        PlainTextSurvives(w[1..], s[1..], prefix);
        assert out[1..] == Rewrite(s[1..], prefix);
        assert w == [w[0]] + w[1..] && s == [s[0]] + s[1..] && out == [out[0]] + out[1..];
        assert w <= s <==> w[0] == s[0] && w[1..] <= s[1..];
        assert w <= out <==> w[0] == out[0] && w[1..] <= out[1..];
      }
    }
  }

  lemma PrefixByTail(w: string, c: char, t: string)
    requires w != ""
    ensures w <= [c] + t <==> w[0] == c && w[1..] <= t
  {
    var s := [c] + t;
    assert s[1..] == t;
    if w <= s {
      assert w == s[..|w|];
      assert w[1..] == s[1..][..|w| - 1];
    }
    if w[0] == c && w[1..] <= t {
      assert w == [w[0]] + w[1..];
    }
  }

  lemma PrefixExtends(w: string, v: string, s: string)
    ensures w + v <= s <==> w <= s && v <= s[|w|..]
  {
    if w + v <= s {
      assert s[..|w|] == (w + v)[..|w|] == w;
      assert s[|w|..][..|v|] == s[..|w + v|][|w|..] == v;
    }
    if w <= s && v <= s[|w|..] {
      assert s == w + s[|w|..];
      assert s[..|w + v|] == w + s[|w|..][..|v|];
    }
  }

  /** For a fixed opening, matching is a question of two prefixes. */
  lemma MatchByPrefix(open: string, s: string)
    requires open in {"src=\"", "src='", "href=\"", "href='"} && open <= s
    ensures Matches(s) <==> open + "/" <= s && !(open + "/m/" <= s)
  {
    assert AttrLength(s) == |open| by {
      assert s[0] == open[0] && s[..|open|] == open;
      if "src=\"" <= s { assert s[0] == 's'; }
      if "src='" <= s { assert s[0] == 's'; }
    }
    PrefixExtends(open, "/", s);
    PrefixExtends(open, "/m/", s);
    var t := s[|open|..];
    PrefixExtends("/", "m/", t);
    assert "/" + "m/" == "/m/";
    assert |t| > 0 ==> t[1..] == s[|open| + 1..];
  }

  /** The four openings of an asset attribute. */
  ghost predicate IsOpening(open: string) {
    open in {"src=\"", "src='", "href=\"", "href='"}
  }

  lemma OpeningOfMatch(s: string) returns (open: string)
    requires Matches(s)
    ensures IsOpening(open) && open <= s && AttrLength(s) == |open|
  {
    if "src=\"" <= s { open := "src=\""; }
    else if "src='" <= s { open := "src='"; }
    else if "href=\"" <= s { open := "href=\""; }
    else { open := "href='"; }
  }

  /** The pattern at the head of a text, spelled out: an opening, a slash, and no /m/. */
  lemma MatchesExactlyWhen(s: string)
    ensures Matches(s) <==>
            exists open :: open in {"src=\"", "src='", "href=\"", "href='"} && open + "/" <= s && !(open + "/m/" <= s)
  {
    if Matches(s) {
      var open := OpeningOfMatch(s);
      MatchByPrefix(open, s);
    }
    forall open | IsOpening(open) && open + "/" <= s && !(open + "/m/" <= s) ensures Matches(s) {
      PrefixExtends(open, "/", s);
      MatchByPrefix(open, s);
    }
  }

  lemma OpeningShape(open: string)
    requires IsOpening(open)
    ensures |open| >= 5 && (open[0] == 's' || open[0] == 'h') && '/' !in open && open[|open| - 2] == '='
    ensures 's' !in open[1..] && 'h' !in open[1..]
  {
    assert open[1..] in {"rc=\"", "rc='", "ref=\"", "ref='"};
  }

  /** A word whose tail is plain text heads the copied character and rewritten rest iff it headed the input. */
  lemma SameHead(w: string, c: char, rest: string, prefix: string)
    requires w != "" && 's' !in w[1..] && 'h' !in w[1..]
    ensures w <= [c] + Rewrite(rest, prefix) <==> w <= [c] + rest
  {
    PrefixByTail(w, c, rest);
    PrefixByTail(w, c, Rewrite(rest, prefix));
    PlainTextSurvives(w[1..], rest, prefix);
  }

  lemma MatchTransfer(open: string, a: string, b: string)
    requires IsOpening(open) && open <= a && open <= b && Matches(a)
    requires open + "/" <= a ==> open + "/" <= b
    requires open + "/m/" <= b ==> open + "/m/" <= a
    ensures Matches(b)
  {
    MatchByPrefix(open, a);
    MatchByPrefix(open, b);
  }

  /** An opening followed by the start of a path heads the copied text iff it headed the input. */
  lemma SameOpening(open: string, path: string, c: char, rest: string, prefix: string)
    requires IsOpening(open) && 's' !in path && 'h' !in path
    ensures open + path <= [c] + Rewrite(rest, prefix) <==> open + path <= [c] + rest
  {
    OpeningShape(open);
    var w := open + path;
    assert w[1..] == open[1..] + path;
    SameHead(w, c, rest, prefix);
  }

  /** Copying one unmatched character cannot create a match in front of the rewritten rest. */
  lemma NoNewMatch(c: char, rest: string, prefix: string)
    requires !Matches([c] + rest)
    ensures !Matches([c] + Rewrite(rest, prefix))
  {
    var out := [c] + Rewrite(rest, prefix);
    if Matches(out) {
      var open := OpeningOfMatch(out);
      assert open + "" == open;
      SameOpening(open, "", c, rest, prefix);
      SameOpening(open, "/", c, rest, prefix);
      SameOpening(open, "/m/", c, rest, prefix);
      MatchTransfer(open, out, [c] + rest);
    }
  }

  lemma NoMatchOutsideOpenings(s: string)
    requires s != "" && s[0] != 's' && s[0] != 'h'
    ensures !Matches(s)
  {
  }

  lemma {:induction false} SettledPlain(w: string, t: string)
    requires 's' !in w && 'h' !in w && Settled(t)
    ensures Settled(w + t)
  {
    if w == "" {
      assert w + t == t;
    } else {
      var whole, rest := w + t, w[1..];
      assert whole[0] == w[0] && w[0] in w;
      SettledPlain(rest, t);
      NoMatchOutsideOpenings(whole);
      assert whole[1..] == rest + t;
    }
  }

  lemma PrefixTrans(a: string, b: string, c: string)
    requires a <= b && b <= c
    ensures a <= c
  {
    assert a == b[..|a|] == c[..|a|];
  }

  /** A word with no slash that heads q/r lies within q, and so does the slash behind it. */
  lemma WordBeforeSlash(w: string, q: string, r: string)
    requires '/' !in w && w + "/" <= q + "/" + r
    ensures w <= q + "/" && w + "/" <= q + "/"
  {
    var s, head := q + "/" + r, q + "/";
    assert s[|q|] == '/';
    assert forall k :: 0 <= k < |w| ==> s[k] == (w + "/")[k] == w[k];
    assert |w| <= |q|;
    assert w + "/" == s[..|w| + 1] == head[..|w| + 1];
    assert w == (w + "/")[..|w|] == head[..|w|];
  }

  lemma NoMatchAcross(q: string, r: string)
    requires !Matches(q + "/")
    ensures !Matches(q + "/" + r)
  {
    var s, head := q + "/" + r, q + "/";
    if Matches(s) {
      var open := OpeningOfMatch(s);
      OpeningShape(open);
      MatchByPrefix(open, s);
      WordBeforeSlash(open, q, r);
      if open + "/m/" <= head { PrefixTrans(open + "/m/", head, s); }
      MatchTransfer(open, s, head);
    }
  }

  /** Two settled pieces joined by a slash stay settled: no match reaches across the slash. */
  lemma {:induction false} JoinSettled(q: string, r: string)
    requires Settled(q + "/") && Settled(r)
    ensures Settled(q + "/" + r)
  {
    if q == "" {
      SettledPlain("/", r);
      assert q + "/" + r == "/" + r;
    } else {
      assert (q + "/")[1..] == q[1..] + "/" && (q + "/" + r)[1..] == q[1..] + "/" + r;
      JoinSettled(q[1..], r);
      NoMatchAcross(q, r);
    }
  }

  lemma ReplacementDoesNotMatch(open: string, tail: string)
    requires IsOpening(open) && "/m/" <= tail
    ensures !Matches(open + tail)
  {
    var out := open + tail;
    assert out[|open|..] == tail;
    PrefixExtends(open, "/m/", out);
    MatchByPrefix(open, out);
  }

  lemma HeadFirst(w: string, tail: string)
    requires w != ""
    ensures w + tail == [w[0]] + (w[1..] + tail)
  {
  }

  lemma PrependPlain(c: char, w: string, tail: string)
    requires 's' !in w && 'h' !in w && !Matches([c] + (w + tail)) && Settled(tail)
    ensures Settled([c] + (w + tail))
  {
    SettledPlain(w, tail);
    SettledCons(c, w + tail);
  }

  /** An attribute opening in front of settled text under /m/ is settled. */
  lemma ReplacementSettled(open: string, tail: string)
    requires IsOpening(open) && "/m/" <= tail && Settled(tail)
    ensures Settled(open + tail)
  {
    ReplacementDoesNotMatch(open, tail);
    OpeningShape(open);
    HeadFirst(open, tail);
    PrependPlain(open[0], open[1..], tail);
  }

  /** One step of the scan, at a match and elsewhere. */
  lemma RewriteMatch(open: string, html: string, prefix: string)
    requires open <= html && Matches(html) && AttrLength(html) == |open|
    ensures |open| < |html|
    ensures Rewrite(html, prefix) == open + (prefix + "/" + Rewrite(html[|open| + 1..], prefix))
  {
    assert html[..|open|] == open;
    Reassociate(open, prefix, Rewrite(html[|open| + 1..], prefix));
  }

  lemma Reassociate(a: string, b: string, c: string)
    ensures a + b + "/" + c == a + (b + "/" + c)
  {
  }

  lemma RewriteCopy(c: char, rest: string, prefix: string)
    requires !Matches([c] + rest)
    ensures Rewrite([c] + rest, prefix) == [c] + Rewrite(rest, prefix)
  {
    assert ([c] + rest)[1..] == rest;
  }

  lemma SettledCons(c: char, t: string)
    requires !Matches([c] + t) && Settled(t)
    ensures Settled([c] + t)
  {
    assert ([c] + t)[1..] == t;
  }

  /** After rewriting, the pattern matches nowhere: every absolute asset path starts with /m/. */
  lemma {:induction false} RewriteSettles(html: string, prefix: string)
    requires "/m/" <= prefix && Settled(prefix + "/")
    ensures Settled(Rewrite(html, prefix))
  {
    if html == "" {
    } else if Matches(html) {
      var open := OpeningOfMatch(html);
      RewriteMatch(open, html, prefix);
      var rest := html[|open| + 1..];
      RewriteSettles(rest, prefix);
      JoinSettled(prefix, Rewrite(rest, prefix));
      PrefixTrans("/m/", prefix, prefix + "/" + Rewrite(rest, prefix));
      ReplacementSettled(open, prefix + "/" + Rewrite(rest, prefix));
    } else {
      var c, rest := html[0], html[1..];
      assert html == [c] + rest;
      RewriteSettles(rest, prefix);
      RewriteCopy(c, rest, prefix);
      NoNewMatch(c, rest, prefix);
      SettledCons(c, Rewrite(rest, prefix));
    }
  }

  /** Rewriting lengthens exactly the documents that are not settled. */
  lemma {:induction false} RewriteGrows(s: string, prefix: string)
    requires prefix != ""
    ensures |Rewrite(s, prefix)| >= |s| && (|Rewrite(s, prefix)| == |s| <==> Settled(s))
  {
    if s != "" {
      if Matches(s) { RewriteGrows(s[AttrLength(s) + 1..], prefix); } else { RewriteGrows(s[1..], prefix); }
    }
  }

  lemma {:induction false} SettledSuffix(a: string, b: string)
    requires Settled(a + b)
    ensures Settled(b)
  {
    if a == "" { assert a + b == b; } else { assert (a + b)[1..] == a[1..] + b; SettledSuffix(a[1..], b); }
  }

  /**
   Rewriting is idempotent on every document exactly when the mount prefix followed by a slash holds
   no match of its own.
   */
  lemma IdempotentExactlyWhen(prefix: string)
    requires "/m/" <= prefix
    ensures (forall html :: Rewrite(Rewrite(html, prefix), prefix) == Rewrite(html, prefix)) <==> Settled(prefix + "/")
  {
    if Settled(prefix + "/") {
      forall html ensures Rewrite(Rewrite(html, prefix), prefix) == Rewrite(html, prefix) {
        RewriteSettles(html, prefix);
        RewriteSettled(Rewrite(html, prefix), prefix);
      }
    } else {
      var html := "src=\"/";
      var open := "src=\"";
      assert Matches(html) by { assert html[6..] == ""; }
      var out := Rewrite(html, prefix);
      assert out == open + (prefix + "/") by {
        assert html[..5] == open && html[6..] == "" && Rewrite("", prefix) == "";
      }
      if Settled(out) { SettledSuffix(open, prefix + "/"); }
      RewriteGrows(out, prefix);
      assert Rewrite(Rewrite(html, prefix), prefix) != Rewrite(html, prefix);
    }
  }

  /** A code that spells an attribute opening breaks it: rewriting src="/ twice inserts the prefix twice. */
  lemma QuotedCodeIsNotIdempotent()
    ensures var prefix := "/m/src=\"";
            exists html :: Rewrite(Rewrite(html, prefix), prefix) != Rewrite(html, prefix)
  {
    var prefix := "/m/src=\"";
    var open := "src=\"";
    var q := prefix + "/";
    var tail := open + "/";
    assert q == "/m/" + tail;
    MatchByPrefix(open, tail);
    assert Matches(tail);
    if Settled(q) { SettledSuffix("/m/", tail); }
    IdempotentExactlyWhen(prefix);
  }

  lemma {:induction false} NoEqualsIsSettled(q: string)
    requires '=' !in q
    ensures Settled(q)
  {
    if q != "" {
      NoEqualsIsSettled(q[1..]);
      if Matches(q) {
        var open := OpeningOfMatch(q);
        OpeningShape(open);
      }
    }
  }

  /** For every mount code without '=': idempotent, and every absolute asset path ends up under /m/. */
  lemma MountRewriteIsIdempotent(html: string, code: string)
    requires '=' !in code
    ensures var prefix := "/m/" + code; var out := Rewrite(html, prefix);
            && Rewrite(out, prefix) == out
            && forall i :: 0 <= i <= |out| && AbsolutePath(out[i..]) ==> "m/" <= out[i..][AttrLength(out[i..]) + 1..]
  {
    var prefix := "/m/" + code;
    NoEqualsIsSettled(prefix + "/");
    RewriteSettles(html, prefix);
    RewriteSettled(Rewrite(html, prefix), prefix);
    SettledEverywhere(Rewrite(html, prefix));
  }

  // ---------------------------------------------------------------------------
  // Nothing else changes
  // ---------------------------------------------------------------------------

  /** Position i is the slash of some match of the pattern, wherever the scan happens to be. */
  ghost predicate MatchedSlash(html: string, i: nat) {
    exists j :: 0 <= j < i && j <= |html| && Matches(html[j..]) && j + AttrLength(html[j..]) == i
  }

  /** The document from position i on, with the prefix inserted before each matched slash. */
  ghost function Inserted(html: string, prefix: string, i: nat): string
    requires i <= |html|
    decreases |html| - i
  {
    if i == |html| then ""
    else (if MatchedSlash(html, i) then prefix else "") + [html[i]] + Inserted(html, prefix, i + 1)
  }

  /** No match starts before i and ends after it. */
  ghost predicate Boundary(html: string, i: nat) {
    forall j :: 0 <= j < i && j <= |html| && Matches(html[j..]) ==> j + AttrLength(html[j..]) < i
  }

  lemma OnlySlashesAreMatched(html: string, i: nat)
    requires i < |html| && html[i] != '/'
    ensures !MatchedSlash(html, i)
  {
    forall j | 0 <= j < i && j <= |html| && Matches(html[j..]) ensures j + AttrLength(html[j..]) != i {
      var s, n := html[j..], AttrLength(html[j..]);
      assert s[n] == '/' && s[n] == html[j + n];
    }
  }

  lemma InsertedCopies(html: string, prefix: string, i: nat)
    requires i < |html| && !MatchedSlash(html, i)
    ensures Inserted(html, prefix, i) == [html[i]] + Inserted(html, prefix, i + 1)
  {
  }

  lemma SliceCons(s: string, i: nat, k: nat, rest: string)
    requires i < k <= |s|
    ensures [s[i]] + (s[i + 1..k] + rest) == s[i..k] + rest
  {
    assert s[i..k] == [s[i]] + s[i + 1..k];
  }

  lemma {:induction false} InsertedSkips(html: string, prefix: string, i: nat, k: nat)
    requires i <= k <= |html| && forall x :: i <= x < k ==> html[x] != '/'
    ensures Inserted(html, prefix, i) == html[i..k] + Inserted(html, prefix, k)
    decreases k - i
  {
    if i < k {
      OnlySlashesAreMatched(html, i);
      InsertedCopies(html, prefix, i);
      InsertedSkips(html, prefix, i + 1, k);
      SliceCons(html, i, k, Inserted(html, prefix, k));
    } else {
      assert html[i..k] == "";
    }
  }

  lemma OpeningInPlace(html: string, i: nat, open: string)
    requires i < |html| && IsOpening(open) && open <= html[i..]
    requires Matches(html[i..]) && AttrLength(html[i..]) == |open|
    ensures i + |open| < |html| && html[i..i + |open|] == open && html[i + |open|] == '/'
    ensures html[i..][|open| + 1..] == html[i + |open| + 1..]
    ensures MatchedSlash(html, i + |open|)
  {
    var s := html[i..];
    assert html[i..i + |open|] == s[..|open|];
    assert s[|open|] == html[i + |open|];
  }

  lemma InsertedAtSlash(html: string, prefix: string, k: nat)
    requires k < |html| && html[k] == '/' && MatchedSlash(html, k)
    ensures Inserted(html, prefix, k) == prefix + "/" + Inserted(html, prefix, k + 1)
  {
  }

  lemma NoSlashInside(html: string, i: nat, open: string)
    requires i + |open| <= |html| && html[i..i + |open|] == open && '/' !in open
    ensures forall x :: i <= x < i + |open| ==> html[x] != '/'
  {
    forall x | i <= x < i + |open| ensures html[x] != '/' {
      assert html[x] == html[i..i + |open|][x - i];
      assert open[x - i] in open;
    }
  }

  lemma InsertedAtMatch(html: string, prefix: string, i: nat, open: string, tail: string)
    requires i + |open| < |html| && html[i..i + |open|] == open && '/' !in open
    requires Inserted(html, prefix, i + |open|) == tail
    ensures Inserted(html, prefix, i) == open + tail
  {
    NoSlashInside(html, i, open);
    InsertedSkips(html, prefix, i, i + |open|);
  }

  /** The scan from any boundary inserts the prefix before exactly the matched slashes. */
  lemma {:induction false} ScanIsInsertion(html: string, prefix: string, i: nat)
    requires i <= |html| && Boundary(html, i)
    ensures Rewrite(html[i..], prefix) == Inserted(html, prefix, i)
    decreases |html| - i
  {
    var s := html[i..];
    if i == |html| {
    } else if Matches(s) {
      var open := OpeningOfMatch(s);
      OpeningShape(open);
      OpeningInPlace(html, i, open);
      InsertedAtSlash(html, prefix, i + |open|);
      InsertedAtMatch(html, prefix, i, open, prefix + "/" + Inserted(html, prefix, i + |open| + 1));
      BoundaryAfterMatch(html, i, open);
      ScanIsInsertion(html, prefix, i + |open| + 1);
      RewriteMatch(open, s, prefix);
    } else {
      CopyAtBoundary(html, prefix, i);
      ScanIsInsertion(html, prefix, i + 1);
    }
  }

  lemma CopyAtBoundary(html: string, prefix: string, i: nat)
    requires i < |html| && Boundary(html, i) && !Matches(html[i..])
    ensures Boundary(html, i + 1)
    ensures Rewrite(html[i..], prefix) == [html[i]] + Rewrite(html[i + 1..], prefix)
    ensures Inserted(html, prefix, i) == [html[i]] + Inserted(html, prefix, i + 1)
  {
    assert html[i..] == [html[i]] + html[i + 1..];
    RewriteCopy(html[i], html[i + 1..], prefix);
    assert !MatchedSlash(html, i);
  }

  lemma BoundaryAfterMatch(html: string, i: nat, open: string)
    requires i < |html| && Boundary(html, i) && IsOpening(open) && open <= html[i..]
    requires Matches(html[i..]) && AttrLength(html[i..]) == |open|
    ensures Boundary(html, i + |open| + 1)
  {
    var n := |open|;
    forall j | 0 <= j < i + n + 1 && j <= |html| && Matches(html[j..]) ensures j + AttrLength(html[j..]) < i + n + 1 {
      if j > i {
        var other := OpeningOfMatch(html[j..]);
        assert html[j] == html[j..][0] == other[0];
        assert html[j] == html[i..][j - i];
        assert j < i + n ==> html[j] == open[j - i];
      }
    }
  }

  /** The output is the input with the prefix inserted before each matched slash, and nothing else. */
  lemma RewriteOnlyInserts(html: string, prefix: string)
    ensures Rewrite(html, prefix) == Inserted(html, prefix, 0)
  {
    assert html[0..] == html;
    ScanIsInsertion(html, prefix, 0);
  }
}
