/** The decoded POST form and the HTML table that `lsform` renders from it
    (www.py:112-124). */
module Forms {
  import opened Options
  import opened Text

  /** One decoded form field. `text` is what the handler gets from
      `form[key].value` and formats into a table cell; `file` holds the bytes
      of `form[key].file.read()` when the field carries an uploaded file. */
  datatype Field = Field(text: string, file: Option<seq<bv8>>)

  /** A decoded form: each field name bound to a single field. */
  type Form = map<string, Field>

  const LIST_HEADING := "<p>list up form values\n"
  const TABLE_OPEN := "<table border=0 frame=void cellspacing=30>\n"
  const TABLE_CLOSE := "</table>\n"

  /** `m` is the smallest of `keys`. */
  predicate IsLeast(m: string, keys: set<string>)
  {
    m in keys && forall k :: k in keys && k != m ==> Less(m, k)
  }

  lemma {:induction false} LeastExists(keys: set<string>)
    requires keys != {}
    ensures exists m :: IsLeast(m, keys)
    decreases keys
  {
    var x :| x in keys;
    if keys == {x} {
      assert IsLeast(x, keys);
    } else {
      var rest := keys - {x};
      LeastExists(rest);
      var m :| m in rest && IsLeast(m, rest);
      if Less(x, m) {
        forall k | k in keys && k != x
          ensures Less(x, k)
        {
          if k != m {
            LessTransitive(x, m, k);
          }
        }
        assert IsLeast(x, keys);
      } else {
        LessTotal(x, m);
        assert IsLeast(m, keys);
      }
    }
  }

  lemma LeastUnique(a: string, b: string, keys: set<string>)
    requires IsLeast(a, keys) && IsLeast(b, keys)
    ensures a == b
  {
    if a != b {
      LessAsymmetric(a, b);
    }
  }

  /** What Python's `sorted(keys)` returns for a set of strings: every key
      once, in strictly ascending order. */
  ghost function SortedKeys(keys: set<string>): (ks: seq<string>)
    ensures StrictlyAscending(ks)
    ensures forall k :: k in ks <==> k in keys
    ensures |ks| == |keys|
    decreases keys
  {
    if keys == {} then []
    else
      LeastExists(keys);
      var m :| IsLeast(m, keys);
      [m] + SortedKeys(keys - {m})
  }

  /** The first element of a strictly ascending list is the least of its
      elements, and the rest holds every other element. */
  lemma HeadIsLeast(ks: seq<string>, keys: set<string>)
    requires ks != [] && StrictlyAscending(ks)
    requires forall k :: k in ks <==> k in keys
    ensures IsLeast(ks[0], keys)
    ensures forall k :: k in ks[1..] <==> k in keys - {ks[0]}
  {
    forall k | k in ks[1..]
      ensures k != ks[0]
    {
      var j :| 1 <= j < |ks| && ks[j] == k;
      LessIrreflexive(k);
    }
    assert ks == [ks[0]] + ks[1..];
  }

  /** A strictly ascending list of exactly `keys` holds each key once, so its
      length is the number of keys. */
  lemma {:induction false} AscendingCount(ks: seq<string>, keys: set<string>)
    requires StrictlyAscending(ks)
    requires forall k :: k in ks <==> k in keys
    ensures |ks| == |keys|
    decreases |ks|
  {
    if ks == [] {
      assert keys == {};
    } else {
      HeadIsLeast(ks, keys);
      AscendingCount(ks[1..], keys - {ks[0]});
    }
  }

  /** Two strictly ascending lists holding the same strings are equal. */
  lemma {:induction false} AscendingUnique(xs: seq<string>, ys: seq<string>, keys: set<string>)
    requires StrictlyAscending(xs) && StrictlyAscending(ys)
    requires forall k :: k in xs <==> k in keys
    requires forall k :: k in ys <==> k in keys
    ensures xs == ys
    decreases |xs|
  {
    if xs == [] {
      AscendingCount(xs, keys);
      AscendingCount(ys, keys);
    } else {
      assert xs[0] in keys;
      assert ys != [];
      HeadIsLeast(xs, keys);
      HeadIsLeast(ys, keys);
      LeastUnique(xs[0], ys[0], keys);
      AscendingUnique(xs[1..], ys[1..], keys - {xs[0]});
      assert xs == [xs[0]] + xs[1..];
      assert ys == [ys[0]] + ys[1..];
    }
  }

  /** A strictly ascending list of exactly `keys` can only be `sorted(keys)`. */
  lemma SortedKeysUnique(ks: seq<string>, keys: set<string>)
    requires StrictlyAscending(ks)
    requires forall k :: k in ks <==> k in keys
    ensures ks == SortedKeys(keys)
  {
    AscendingUnique(ks, SortedKeys(keys), keys);
  }

  /** The built-in `sorted` applied to the form's key set. */
  method SortKeys(keys: set<string>) returns (ks: seq<string>)
    ensures ks == SortedKeys(keys)
  {
    ks := [];
    var rest := keys;
    while rest != {}
      invariant rest <= keys
      invariant StrictlyAscending(ks)
      invariant forall k :: k in ks <==> k in keys && k !in rest
      invariant forall i, k :: 0 <= i < |ks| && k in rest ==> Less(ks[i], k)
      decreases rest
    {
      LeastExists(rest);
      var m :| m in rest && IsLeast(m, rest);
      ks := ks + [m];
      rest := rest - {m};
    }
    SortedKeysUnique(ks, keys);
  }

  /** One table row, `"<tr><td>{}<td>{}</tr>\n".format(key, val)`. */
  function Row(key: string, value: string): string
  {
    "<tr><td>" + key + "<td>" + value + "</tr>\n"
  }

  /** The rows for `ks`, in that order, one per key. */
  function RowsText(ks: seq<string>, form: Form): string
    requires forall i :: 0 <= i < |ks| ==> ks[i] in form
  {
    if ks == [] then ""
    else RowsText(ks[..|ks| - 1], form) + Row(ks[|ks| - 1], form[ks[|ks| - 1]].text)
  }

  lemma SortedKeysInForm(form: Form)
    ensures forall j :: 0 <= j < |SortedKeys(form.Keys)| ==> SortedKeys(form.Keys)[j] in form
  {
  }

  /** Extending the key list by one key adds that key's row at the end. */
  lemma RowsTextStep(ks: seq<string>, i: nat, form: Form)
    requires i < |ks|
    requires forall j :: 0 <= j < |ks| ==> ks[j] in form
    ensures RowsText(ks[..i + 1], form) == RowsText(ks[..i], form) + Row(ks[i], form[ks[i]].text)
  {
    assert ks[..i + 1][..i] == ks[..i];
  }

  /** The loop of `lsform` (www.py:119-121): appends each key's row to `msg`
      in the order of `keys`. */
  method AppendRows(msg0: string, keys: seq<string>, form: Form) returns (msg: string)
    requires forall j :: 0 <= j < |keys| ==> keys[j] in form
    ensures msg == msg0 + RowsText(keys, form)
  {
    msg := msg0;
    for i := 0 to |keys|
      invariant msg == msg0 + RowsText(keys[..i], form)
    {
      var val := form[keys[i]].text;
      msg := msg + Row(keys[i], val);
      RowsTextStep(keys, i, form);
    }
    assert keys[..|keys|] == keys;
  }

  /** The page around the rows. */
  function Page(rows: string): string
  {
    LIST_HEADING + TABLE_OPEN + rows + TABLE_CLOSE
  }

  /** The page `lsform` returns for `form`. */
  ghost function FormTable(form: Form): string
  {
    Page(RowsText(SortedKeys(form.Keys), form))
  }

  /** An empty form is listed as the heading and the empty table. */
  lemma EmptyFormTable(form: Form)
    requires form == map[]
    ensures FormTable(form) == LIST_HEADING + TABLE_OPEN + TABLE_CLOSE
  {
  }

  lemma TwoKeysSorted(keys: set<string>)
    requires keys == {"a", "b"}
    ensures SortedKeys(keys) == ["a", "b"]
  {
  }

  lemma TwoRowsText(form: Form)
    requires "a" in form && "b" in form
    ensures RowsText(["a", "b"], form) == Row("a", form["a"].text) + Row("b", form["b"].text)
  {
    var ks := ["a", "b"];
    assert ks[..1] == ["a"] && ["a"][..0] == [];
    assert RowsText(["a"], form) == Row("a", form["a"].text);
  }

  /** A form with fields `a=1` and `b=2` is listed as the row for `a`, then
      the row for `b`, each `<tr><td>name<td>value</tr>`. */
  lemma TwoFieldTable(form: Form)
    requires form == map["a" := Field("1", None), "b" := Field("2", None)]
    ensures FormTable(form) == Page(Row("a", "1") + Row("b", "2"))
    ensures Row("a", "1") == "<tr><td>a<td>1</tr>\n"
    ensures Row("b", "2") == "<tr><td>b<td>2</tr>\n"
  {
    TwoKeysSorted(form.Keys);
    TwoRowsText(form);
    var rows := RowsText(SortedKeys(form.Keys), form);
    assert rows == Row("a", "1") + Row("b", "2");
    assert FormTable(form) == Page(rows);
    TwoFieldRows();
  }

  lemma TwoFieldRows()
    ensures Row("a", "1") == "<tr><td>a<td>1</tr>\n"
    ensures Row("b", "2") == "<tr><td>b<td>2</tr>\n"
  {
  }
}
