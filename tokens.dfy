/**
 * Java's `String.split(" ")` on a request line. The line is cut at every
 * single space; leading and inner empty pieces are kept, trailing empty
 * pieces are dropped, and a line without any space comes back whole (so the
 * empty line gives one empty token).
 */
module Tokens {

  predicate NoSpace(t: string) {
    ' ' !in t
  }

  predicate AllNoSpace(ts: seq<string>) {
    forall i | 0 <= i < |ts| :: NoSpace(ts[i])
  }

  /** The pieces separated by single spaces, joined back. */
  function Join(ts: seq<string>): string
    requires |ts| >= 1
  {
    if |ts| == 1 then ts[0] else ts[0] + " " + Join(ts[1..])
  }

  /** Every piece between two spaces, including the empty ones. */
  function Fields(s: string): (r: seq<string>)
    ensures |r| >= 1 && AllNoSpace(r)
    ensures Join(r) == s
  {
    if s == [] then [""]
    else
      var rest := Fields(s[1..]);
      if s[0] == ' ' then
        assert Join([""] + rest) == " " + Join(rest) by {
          assert ([""] + rest)[1..] == rest;
        }
        [""] + rest
      else
        var r := [[s[0]] + rest[0]] + rest[1..];
        assert AllNoSpace(r) by {
          forall i | 0 <= i < |r| ensures NoSpace(r[i]) {
            if i > 0 { assert r[i] == rest[i]; }
          }
        }
        assert Join(r) == s by {
          if |rest| > 1 {
            assert r[1..] == rest[1..];
            assert Join(rest) == rest[0] + " " + Join(rest[1..]);
          }
          assert [s[0]] + s[1..] == s;
        }
        r
  }

  /** `ts` with its trailing empty strings removed. */
  function DropTrailingEmpty(ts: seq<string>): (r: seq<string>)
    ensures |r| <= |ts| && r == ts[..|r|]
    ensures forall i | |r| <= i < |ts| :: ts[i] == ""
    ensures r == [] || r[|r| - 1] != ""
  {
    if ts != [] && ts[|ts| - 1] == "" then DropTrailingEmpty(ts[..|ts| - 1]) else ts
  }

  /** `line.split(" ")`. */
  function Split(line: string): (r: seq<string>)
    ensures AllNoSpace(r)
  {
    if ' ' !in line then [line] else DropTrailingEmpty(Fields(line))
  }

  /**
   * What `Split` keeps: without a space the line itself; otherwise a prefix
   * of the fields whose last piece is not empty, every dropped field being empty.
   */
  lemma SplitShape(line: string)
    ensures ' ' !in line ==> Split(line) == [line]
    ensures ' ' in line ==>
              var f, r := Fields(line), Split(line);
              |r| <= |f| && r == f[..|r|] && (r == [] || r[|r| - 1] != "") &&
              forall i | |r| <= i < |f| :: f[i] == ""
  {
  }

  /** A space-free prefix followed by a space starts a new field. */
  lemma {:induction false} FieldsCons(t: string, u: string)
    requires NoSpace(t)
    ensures Fields(t + " " + u) == [t] + Fields(u)
  {
    if t == [] {
      assert t + " " + u == [' '] + u;
      assert ([' '] + u)[1..] == u;
    } else {
      var s := t + " " + u;
      assert s[0] == t[0] && s[1..] == t[1..] + " " + u;
      FieldsCons(t[1..], u);
      assert [t[0]] + t[1..] == t;
    }
  }

  /** A space-free string is a single field. */
  lemma {:induction false} FieldsNoSpace(t: string)
    requires NoSpace(t)
    ensures Fields(t) == [t]
  {
    if t != [] {
      FieldsNoSpace(t[1..]);
      assert [t[0]] + t[1..] == t;
    }
  }

  /** Cutting a joined line at its spaces gives back the pieces. */
  lemma {:induction false} FieldsJoin(ts: seq<string>)
    requires |ts| >= 1 && AllNoSpace(ts)
    ensures Fields(Join(ts)) == ts
  {
    if |ts| == 1 {
      FieldsNoSpace(ts[0]);
    } else {
      assert AllNoSpace(ts[1..]) by {
        forall i | 0 <= i < |ts| - 1 ensures NoSpace(ts[1..][i]) { assert ts[1..][i] == ts[i + 1]; }
      }
      FieldsJoin(ts[1..]);
      FieldsCons(ts[0], Join(ts[1..]));
      assert [ts[0]] + ts[1..] == ts;
    }
  }

  /**
   * `Split` inverts `Join` for space-free pieces, provided the last piece is
   * not empty (or there is only one piece): the dropped trailing empties are
   * the only loss.
   */
  lemma {:induction false} SplitJoin(ts: seq<string>)
    requires |ts| >= 1 && AllNoSpace(ts)
    requires |ts| == 1 || ts[|ts| - 1] != ""
    ensures Split(Join(ts)) == ts
  {
    if |ts| == 1 {
      assert Join(ts) == ts[0];
    } else {
      FieldsJoin(ts);
      assert Join(ts)[|ts[0]|] == ' ';
    }
  }

  /** Trailing spaces do not change the tokens of a line that has a non-empty last token. */
  lemma {:induction false} SplitTrailingSpace(ts: seq<string>)
    requires |ts| >= 1 && AllNoSpace(ts) && ts[|ts| - 1] != ""
    ensures Split(Join(ts) + " ") == ts
  {
    var e := ts + [""];
    assert AllNoSpace(e) by {
      forall i | 0 <= i < |e| ensures NoSpace(e[i]) { if i < |ts| { assert e[i] == ts[i]; } }
    }
    var line := Join(ts) + " ";
    JoinSnoc(ts, "");
    assert Join(e) == line by { assert Join(ts) + " " + "" == line; }
    FieldsJoin(e);
    assert ' ' in line by { assert line[|Join(ts)|] == ' '; }
    assert Split(line) == DropTrailingEmpty(e);
    assert e[..|e| - 1] == ts;
  }

  lemma {:induction false} JoinSnoc(ts: seq<string>, t: string)
    requires |ts| >= 1
    ensures Join(ts + [t]) == Join(ts) + " " + t
  {
    if |ts| == 1 {
      assert (ts + [t])[1..] == [t];
    } else {
      assert (ts + [t])[1..] == ts[1..] + [t];
      JoinSnoc(ts[1..], t);
    }
  }
}
