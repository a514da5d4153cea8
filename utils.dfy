/**
 * The two helpers of delivery_tracker/utils.py: the generator of random
 * passwords (with the random choices passed in as indices) and the HTML
 * table shown in the site's pop-ups.
 */
module Utils {

  // ---------------------------------------------------------------------
  // Character classes
  // ---------------------------------------------------------------------

  /** The `n` consecutive ASCII characters starting at `first`. */
  function Span(first: char, n: nat): (s: string)
    requires first as int + n <= 128
    ensures |s| == n
  {
    seq(n, k requires 0 <= k < n => (first as int + k) as char)
  }

  lemma SpanMembers(first: char, n: nat)
    requires first as int + n <= 128
    ensures forall c :: c in Span(first, n) <==> first <= c && (c as int) < first as int + n
  {
    forall c | first <= c && (c as int) < first as int + n ensures c in Span(first, n) {
      assert Span(first, n)[c as int - first as int] == c;
    }
  }

  /** `string.ascii_lowercase`, `string.ascii_uppercase` and `string.digits`. */
  const AsciiLowercase: string := Span('a', 26)
  const AsciiUppercase: string := Span('A', 26)
  const Digits: string := Span('0', 10)

  /**
   * The characters a password is drawn from, in the order the removals leave
   * them: "abcdefghijkmnpqrstuvwxyzABCDEFGHJKLMNPQRSTUVWXYZ23456789".
   */
  const PasswordAlphabet: string :=
    (Span('a', 11) + Span('m', 2) + Span('p', 11)) +
    (Span('A', 8) + Span('J', 5) + Span('P', 11)) +
    Span('2', 8)

  /** The characters left out of passwords because they are easily confused. */
  const Confusable: string := "oO0lI1"

  predicate IsAsciiAlphanumeric(c: char) {
    'a' <= c <= 'z' || 'A' <= c <= 'Z' || '0' <= c <= '9'
  }

  /** A character a generated password may contain. */
  predicate IsPasswordChar(c: char) {
    IsAsciiAlphanumeric(c) && c !in Confusable
  }

  /** No character occurs twice. */
  predicate Distinct(s: string) {
    forall i, j :: 0 <= i < j < |s| ==> s[i] != s[j]
  }

  lemma SpanDistinct(first: char, n: nat)
    requires first as int + n <= 128
    ensures Distinct(Span(first, n))
  {
  }

  /** Joining two strings without repeats and without a common character gives one without repeats. */
  lemma DistinctConcat(a: string, b: string)
    requires Distinct(a) && Distinct(b)
    requires forall c :: c in a ==> c !in b
    ensures Distinct(a + b)
  {
    var s := a + b;
    forall i, j | 0 <= i < j < |s| ensures s[i] != s[j] {
      if j < |a| {
        assert s[i] == a[i] && s[j] == a[j];
      } else if i >= |a| {
        assert s[i] == b[i - |a|] && s[j] == b[j - |a|];
      } else {
        assert s[i] == a[i] && a[i] in a;
        assert s[j] == b[j - |a|] && b[j - |a|] in b;
      }
    }
  }

  /** The alphabet holds 56 different characters: the letters and digits that are not confusable. */
  lemma {:induction false} PasswordAlphabetChars()
    ensures |PasswordAlphabet| == 56 && Distinct(PasswordAlphabet)
    ensures forall c :: c in PasswordAlphabet <==> IsPasswordChar(c)
  {
    SpanMembers('a', 11); SpanMembers('m', 2); SpanMembers('p', 11);
    SpanMembers('A', 8); SpanMembers('J', 5); SpanMembers('P', 11);
    SpanMembers('2', 8);
    SpanDistinct('a', 11); SpanDistinct('m', 2); SpanDistinct('p', 11);
    SpanDistinct('A', 8); SpanDistinct('J', 5); SpanDistinct('P', 11);
    SpanDistinct('2', 8);
    var x1 := Span('a', 11) + Span('m', 2);
    DistinctConcat(Span('a', 11), Span('m', 2));
    var x := x1 + Span('p', 11);
    DistinctConcat(x1, Span('p', 11));
    var y1 := Span('A', 8) + Span('J', 5);
    DistinctConcat(Span('A', 8), Span('J', 5));
    var y := y1 + Span('P', 11);
    DistinctConcat(y1, Span('P', 11));
    DistinctConcat(x, y);
    DistinctConcat(x + y, Span('2', 8));
  }

  // ---------------------------------------------------------------------
  // str.replace(c, '')
  // ---------------------------------------------------------------------

  /** `s.replace(c, '')`: every occurrence of `c` dropped, the other characters kept in order. */
  function RemoveAll(s: string, c: char): (r: string)
    ensures |r| <= |s|
    ensures c !in r
    ensures forall x :: x != c ==> (x in r <==> x in s)
  {
    if s == [] then "" else if s[0] == c then RemoveAll(s[1..], c) else [s[0]] + RemoveAll(s[1..], c)
  }

  /** Removing a character from a concatenation removes it from each part. */
  lemma {:induction false} RemoveAllConcat(a: string, b: string, c: char)
    ensures RemoveAll(a + b, c) == RemoveAll(a, c) + RemoveAll(b, c)
  {
    if a == [] {
      assert a + b == b;
    } else {
      assert (a + b)[1..] == a[1..] + b;
      RemoveAllConcat(a[1..], b, c);
    }
  }

  /** Removing a character that does not occur changes nothing. */
  lemma {:induction false} RemoveAllAbsent(s: string, c: char)
    requires c !in s
    ensures RemoveAll(s, c) == s
  {
    if s != [] {
      RemoveAllAbsent(s[1..], c);
    }
  }

  /** Removing a character that occurs once cuts out exactly that occurrence. */
  lemma RemoveAllOnce(a: string, c: char, b: string)
    requires c !in a && c !in b
    ensures RemoveAll(a + [c] + b, c) == a + b
  {
    var x := a + [c];
    assert RemoveAll(x + b, c) == RemoveAll(x, c) + RemoveAll(b, c) by {
      RemoveAllConcat(x, b, c);
    }
    assert RemoveAll(x, c) == RemoveAll(a, c) + RemoveAll([c], c) by {
      RemoveAllConcat(a, [c], c);
    }
    assert RemoveAll([c], c) == [] by {
      assert [c][1..] == [];
    }
    assert RemoveAll(a, c) == a by {
      RemoveAllAbsent(a, c);
    }
    assert RemoveAll(b, c) == b by {
      RemoveAllAbsent(b, c);
    }
    assert a + [] == a;
  }

  /** Removing a character of a span splits the span around it. */
  lemma RemoveAllSpan(first: char, n: nat, c: char)
    requires first as int + n <= 128
    requires first <= c && (c as int) < first as int + n
    ensures RemoveAll(Span(first, n), c)
         == Span(first, c as int - first as int) + Span((c as int + 1) as char, first as int + n - c as int - 1)
  {
    var k := c as int - first as int;
    var a, b := Span(first, k), Span((c as int + 1) as char, n - k - 1);
    assert Span(first, n) == a + [c] + b;
    SpanMembers(first, k);
    SpanMembers((c as int + 1) as char, n - k - 1);
    RemoveAllOnce(a, c, b);
  }

  /** The six removals `generate_password` makes, in its order: o, O, 0, l, I, 1. */
  function RemoveConfusable(s: string): string
  {
    RemoveAll(RemoveAll(RemoveAll(RemoveAll(RemoveAll(RemoveAll(s, 'o'), 'O'), '0'), 'l'), 'I'), '1')
  }

  lemma RemoveConfusableConcat(a: string, b: string)
    ensures RemoveConfusable(a + b) == RemoveConfusable(a) + RemoveConfusable(b)
  {
    var x, y := a, b;
    RemoveAllConcat(x, y, 'o');
    x, y := RemoveAll(x, 'o'), RemoveAll(y, 'o');
    RemoveAllConcat(x, y, 'O');
    x, y := RemoveAll(x, 'O'), RemoveAll(y, 'O');
    RemoveAllConcat(x, y, '0');
    x, y := RemoveAll(x, '0'), RemoveAll(y, '0');
    RemoveAllConcat(x, y, 'l');
    x, y := RemoveAll(x, 'l'), RemoveAll(y, 'l');
    RemoveAllConcat(x, y, 'I');
    x, y := RemoveAll(x, 'I'), RemoveAll(y, 'I');
    RemoveAllConcat(x, y, '1');
  }

  lemma LowercaseWithoutConfusable()
    ensures RemoveConfusable(AsciiLowercase) == Span('a', 11) + Span('m', 2) + Span('p', 11)
  {
    var s1 := Span('a', 14) + Span('p', 11);
    var s4 := Span('a', 11) + Span('m', 2) + Span('p', 11);
    assert RemoveAll(AsciiLowercase, 'o') == s1 by {
      RemoveAllSpan('a', 26, 'o');
    }
    assert RemoveAll(RemoveAll(s1, 'O'), '0') == s1 by {
      SpanMembers('a', 14); SpanMembers('p', 11);
      RemoveAllAbsent(s1, 'O');
      RemoveAllAbsent(s1, '0');
    }
    assert RemoveAll(s1, 'l') == s4 by {
      SpanMembers('p', 11);
      RemoveAllConcat(Span('a', 14), Span('p', 11), 'l');
      RemoveAllSpan('a', 14, 'l');
      RemoveAllAbsent(Span('p', 11), 'l');
    }
    assert RemoveAll(RemoveAll(s4, 'I'), '1') == s4 by {
      SpanMembers('a', 11); SpanMembers('m', 2); SpanMembers('p', 11);
      RemoveAllAbsent(s4, 'I');
      RemoveAllAbsent(s4, '1');
    }
  }

  lemma UppercaseWithoutConfusable()
    ensures RemoveConfusable(AsciiUppercase) == Span('A', 8) + Span('J', 5) + Span('P', 11)
  {
    var s2 := Span('A', 14) + Span('P', 11);
    var s5 := Span('A', 8) + Span('J', 5) + Span('P', 11);
    assert RemoveAll(RemoveAll(AsciiUppercase, 'o'), 'O') == s2 by {
      SpanMembers('A', 26);
      RemoveAllAbsent(Span('A', 26), 'o');
      RemoveAllSpan('A', 26, 'O');
    }
    assert RemoveAll(RemoveAll(s2, '0'), 'l') == s2 by {
      SpanMembers('A', 14); SpanMembers('P', 11);
      RemoveAllAbsent(s2, '0');
      RemoveAllAbsent(s2, 'l');
    }
    assert RemoveAll(s2, 'I') == s5 by {
      SpanMembers('P', 11);
      RemoveAllConcat(Span('A', 14), Span('P', 11), 'I');
      RemoveAllSpan('A', 14, 'I');
      RemoveAllAbsent(Span('P', 11), 'I');
    }
    assert RemoveAll(s5, '1') == s5 by {
      SpanMembers('A', 8); SpanMembers('J', 5); SpanMembers('P', 11);
      RemoveAllAbsent(s5, '1');
    }
  }

  lemma DigitsWithoutConfusable()
    ensures RemoveConfusable(Digits) == Span('2', 8)
  {
    var s3 := Span('1', 9);
    assert RemoveAll(RemoveAll(RemoveAll(Digits, 'o'), 'O'), '0') == s3 by {
      SpanMembers('0', 10);
      RemoveAllAbsent(Span('0', 10), 'o');
      RemoveAllAbsent(Span('0', 10), 'O');
      RemoveAllSpan('0', 10, '0');
      assert Span('0', 0) == [];
    }
    assert RemoveAll(RemoveAll(RemoveAll(s3, 'l'), 'I'), '1') == Span('2', 8) by {
      SpanMembers('1', 9);
      RemoveAllAbsent(s3, 'l');
      RemoveAllAbsent(s3, 'I');
      RemoveAllSpan('1', 9, '1');
      assert Span('1', 0) == [];
    }
  }

  /** The removals applied to the three character classes leave exactly the password alphabet. */
  lemma RemoveConfusableFromClasses()
    ensures RemoveConfusable(AsciiLowercase + AsciiUppercase + Digits) == PasswordAlphabet
  {
    var l, u, d := AsciiLowercase, AsciiUppercase, Digits;
    var x, y, z := Span('a', 11) + Span('m', 2) + Span('p', 11), Span('A', 8) + Span('J', 5) + Span('P', 11), Span('2', 8);
    assert RemoveConfusable(l + u + d) == RemoveConfusable(l) + RemoveConfusable(u) + RemoveConfusable(d) by {
      RemoveConfusableConcat(l + u, d);
      RemoveConfusableConcat(l, u);
    }
    assert RemoveConfusable(l) == x by {
      LowercaseWithoutConfusable();
    }
    assert RemoveConfusable(u) == y by {
      UppercaseWithoutConfusable();
    }
    assert RemoveConfusable(d) == z by {
      DigitsWithoutConfusable();
    }
    assert PasswordAlphabet == x + y + z;
  }

  /**
   * The character set of `generate_password`: ASCII lowercase, uppercase and
   * digits, with o, O, 0, l, I and 1 removed one after the other. It is the
   * 56 letters and digits that are not confusable, each once, in the order
   * of the source's character classes.
   */
  method PasswordChoices() returns (choices: string)
    ensures choices == PasswordAlphabet
    ensures |choices| == 56 && Distinct(choices)
    ensures forall c :: c in choices <==> IsPasswordChar(c)
  {
    choices := AsciiLowercase + AsciiUppercase + Digits;
    ghost var classes := choices;
    choices := RemoveAll(choices, 'o');
    choices := RemoveAll(choices, 'O');
    choices := RemoveAll(choices, '0');
    choices := RemoveAll(choices, 'l');
    choices := RemoveAll(choices, 'I');
    choices := RemoveAll(choices, '1');
    assert choices == RemoveConfusable(classes);
    RemoveConfusableFromClasses();
    PasswordAlphabetChars();
  }

  /**
   * generate_password(length): `length` characters (none when `length` is
   * not positive), the k-th being the alphabet character at `picks[k]`; the
   * indices stand for the draws of the system random source.
   */
  method GeneratePassword(picks: seq<nat>, length: int := 8) returns (password: string)
    requires |picks| == if length < 0 then 0 else length
    requires forall k :: 0 <= k < |picks| ==> picks[k] < |PasswordAlphabet|
    ensures |password| == |picks|
    ensures forall k :: 0 <= k < |password| ==> password[k] == PasswordAlphabet[picks[k]]
    ensures forall k :: 0 <= k < |password| ==> IsPasswordChar(password[k])
  {
    var choices := PasswordChoices();
    password := "";
    var k := 0;
    while k < |picks|
      invariant 0 <= k <= |picks|
      invariant |password| == k
      invariant forall j :: 0 <= j < k ==> password[j] == choices[picks[j]]
    {
      password := password + [choices[picks[k]]];
      k := k + 1;
    }
  }

  // ---------------------------------------------------------------------
  // generate_table_for_popup
  // ---------------------------------------------------------------------

  const TableOpen: string := "<table class=\"popup_table\">"
  const TableClose: string := "</table>"
  const RowOpen: string := "<tr class=\"popup_table_row\">"
  const RowClose: string := "</tr>"

  /** One cell: the text between `<tag>` and `</tag>`, not escaped. */
  function Cell(tag: string, text: string): string {
    "<" + tag + ">" + text + "</" + tag + ">"
  }

  /** The cells of `texts`, in order. */
  function Cells(tag: string, texts: seq<string>): string {
    if texts == [] then "" else Cells(tag, texts[..|texts| - 1]) + Cell(tag, texts[|texts| - 1])
  }

  lemma CellsSnoc(tag: string, texts: seq<string>, c: nat)
    requires c < |texts|
    ensures Cells(tag, texts[..c + 1]) == Cells(tag, texts[..c]) + Cell(tag, texts[c])
  {
    assert texts[..c + 1][..c] == texts[..c];
  }

  /** One table row holding `texts` as `tag` cells. */
  function TableRow(tag: string, texts: seq<string>): string {
    RowOpen + Cells(tag, texts) + RowClose
  }

  /** The data rows, in order. */
  function DataRows(data: seq<seq<string>>): string {
    if data == [] then "" else DataRows(data[..|data| - 1]) + TableRow("td", data[|data| - 1])
  }

  lemma DataRowsSnoc(data: seq<seq<string>>, r: nat)
    requires r < |data|
    ensures DataRows(data[..r + 1]) == DataRows(data[..r]) + TableRow("td", data[r])
  {
    assert data[..r + 1][..r] == data[..r];
  }

  /** The header row, present only when there are header names. */
  function HeaderRow(header: seq<string>): string {
    if header == [] then "" else TableRow("th", header)
  }

  /** The pop-up table: the header row, then one row per data row, inside the table element. */
  function PopupTable(header: seq<string>, data: seq<seq<string>>): string {
    TableOpen + HeaderRow(header) + DataRows(data) + TableClose
  }

  /** The cells of two lists of texts, one after the other. */
  lemma {:induction false} CellsConcat(tag: string, a: seq<string>, b: seq<string>)
    ensures Cells(tag, a + b) == Cells(tag, a) + Cells(tag, b)
    decreases |b|
  {
    if b == [] {
      assert a + b == a;
    } else {
      var b' := b[..|b| - 1];
      assert (a + b)[..|a + b| - 1] == a + b';
      assert (a + b)[|a + b| - 1] == b[|b| - 1];
      CellsConcat(tag, a, b');
      Regroup(Cells(tag, a), Cells(tag, b'), Cell(tag, b[|b| - 1]));
    }
  }

  /** The rows of two batches of data, one after the other. */
  lemma {:induction false} DataRowsConcat(a: seq<seq<string>>, b: seq<seq<string>>)
    ensures DataRows(a + b) == DataRows(a) + DataRows(b)
    decreases |b|
  {
    if b == [] {
      assert a + b == a;
    } else {
      var b' := b[..|b| - 1];
      assert (a + b)[..|a + b| - 1] == a + b';
      assert (a + b)[|a + b| - 1] == b[|b| - 1];
      DataRowsConcat(a, b');
      Regroup(DataRows(a), DataRows(b'), TableRow("td", b[|b| - 1]));
    }
  }

  /**
   * A header row is written exactly when there are header names, and it
   * opens with the first of them as a `th` cell.
   */
  lemma HeaderRowShape(header: seq<string>)
    ensures HeaderRow(header) == "" <==> header == []
    ensures header != [] ==>
              HeaderRow(header) == RowOpen + Cell("th", header[0]) + Cells("th", header[1..]) + RowClose
  {
    if header != [] {
      assert header == [header[0]] + header[1..];
      CellsConcat("th", [header[0]], header[1..]);
      assert Cells("th", [header[0]]) == Cell("th", header[0]) by {
        assert [header[0]][..0] == [];
      }
      assert |HeaderRow(header)| >= |RowOpen| > 0;
    }
  }

  /**
   * The table element always encloses the rows; with neither header names
   * nor data it is empty, and the first data row follows the header row.
   */
  lemma PopupTableShape(header: seq<string>, data: seq<seq<string>>)
    ensures PopupTable(header, data)[..|TableOpen|] == TableOpen
    ensures PopupTable(header, data)[|PopupTable(header, data)| - |TableClose|..] == TableClose
    ensures PopupTable([], []) == "<table class=\"popup_table\"></table>"
    ensures data != [] ==>
              PopupTable(header, data)
              == TableOpen + HeaderRow(header) + TableRow("td", data[0]) + DataRows(data[1..]) + TableClose
  {
    var t := PopupTable(header, data);
    assert t[..|TableOpen|] == TableOpen by {
      Regroup(TableOpen, HeaderRow(header), DataRows(data));
      Regroup(TableOpen, HeaderRow(header) + DataRows(data), TableClose);
    }
    assert PopupTable([], []) == "<table class=\"popup_table\"></table>";
    if data != [] {
      assert DataRows(data) == TableRow("td", data[0]) + DataRows(data[1..]) by {
        assert data == [data[0]] + data[1..];
        DataRowsConcat([data[0]], data[1..]);
        assert DataRows([data[0]]) == TableRow("td", data[0]) by {
          assert [data[0]][..0] == [];
        }
      }
      Regroup(TableOpen + HeaderRow(header), TableRow("td", data[0]), DataRows(data[1..]));
    }
  }

  /** Concatenation regroups; stated once so that proofs can call it on large terms. */
  lemma Regroup<T>(a: seq<T>, b: seq<T>, c: seq<T>)
    ensures a + b + c == a + (b + c)
  {
  }

  /**
   * The row loop `generate_table_for_popup` writes twice (once for the header
   * with `th` cells, once per data row with `td` cells): the row opening tag,
   * one cell per text in order, the row closing tag, appended to `table`.
   */
  method AppendRow(table: string, tag: string, texts: seq<string>) returns (extended: string)
    ensures extended == table + TableRow(tag, texts)
  {
    extended := table + RowOpen;
    var c := 0;
    while c < |texts|
      invariant 0 <= c <= |texts|
      invariant extended == table + RowOpen + Cells(tag, texts[..c])
    {
      CellsSnoc(tag, texts, c);
      extended := extended + Cell(tag, texts[c]);
      c := c + 1;
    }
    assert texts[..|texts|] == texts;
    extended := extended + RowClose;
    Regroup(table, RowOpen, Cells(tag, texts));
    Regroup(table, RowOpen + Cells(tag, texts), RowClose);
  }

  /**
   * generate_table_for_popup: builds the pop-up table by appending to a
   * string, the header row first when there is one, then each data row.
   */
  method GenerateTableForPopup(header: seq<string>, data: seq<seq<string>>) returns (table: string)
    ensures table == PopupTable(header, data)
  {
    table := TableOpen;
    if header != [] {
      table := AppendRow(table, "th", header);
    }
    ghost var head := table;
    assert head == TableOpen + HeaderRow(header) by {
      if header == [] {
        assert TableOpen + "" == TableOpen;
      }
    }
    var r := 0;
    assert table == head + DataRows(data[..r]) by {
      assert data[..r] == [];
      assert head + "" == head;
    }
    while r < |data|
      invariant 0 <= r <= |data|
      invariant table == head + DataRows(data[..r])
    {
      table := AppendRow(table, "td", data[r]);
      DataRowsSnoc(data, r);
      Regroup(head, DataRows(data[..r]), TableRow("td", data[r]));
      r := r + 1;
    }
    assert data[..|data|] == data;
    table := table + TableClose;
  }
}
