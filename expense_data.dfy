/** The expense record shown by the screen (`DataItem`, Frontend/App.tsx:7-14) and the
    JavaScript `<` / `>` comparison of one of its column values. */
module ExpenseData {

  /** The keys of a record (`keyof DataItem`); the header buttons use all but `ID`. */
  datatype Column = ID | TransactionDate | Description | Amount | ExpenseType | Category

  /** One expense record, stored as the endpoint sent it. `Amount` is a number in the
      source; it is kept here in whole cents. */
  datatype DataItem = DataItem(
    id: int,
    transactionDate: string,
    description: string,
    amount: int,
    expenseType: string,
    category: string)

  /** A column value as JavaScript sees it when it compares two of them. */
  datatype Value = Num(n: int) | Str(s: string)

  function ValueOf(item: DataItem, column: Column): (v: Value)
    ensures v.Num? <==> column == ID || column == Amount
  {
    match column
    case ID => Num(item.id)
    case TransactionDate => Str(item.transactionDate)
    case Description => Str(item.description)
    case Amount => Num(item.amount)
    case ExpenseType => Str(item.expenseType)
    case Category => Str(item.category)
  }

  /** JavaScript's `a < b` on two strings: code unit by code unit, a proper prefix first. */
  predicate StrLess(a: string, b: string)
    decreases |a|
  {
    if b == [] then false
    else if a == [] then true
    else if a[0] != b[0] then a[0] < b[0]
    else StrLess(a[1..], b[1..])
  }

  /** JavaScript's `x < y` on two values of one column (numbers, or strings). */
  predicate Less(x: Value, y: Value) {
    match (x, y)
    case (Num(m), Num(n)) => m < n
    case (Str(a), Str(b)) => StrLess(a, b)
    case _ => false
  }

  /** JavaScript's `x > y`, which is `y < x`. */
  predicate Greater(x: Value, y: Value) {
    Less(y, x)
  }

  /** Both values come from the same column: both numbers or both strings. */
  predicate SameKind(x: Value, y: Value) {
    x.Num? == y.Num?
  }

  lemma {:induction false} StrLessIrreflexive(a: string)
    ensures !StrLess(a, a)
    decreases |a|
  {
    if a != [] {
      StrLessIrreflexive(a[1..]);
    }
  }

  lemma {:induction false} StrLessAsymmetric(a: string, b: string)
    ensures StrLess(a, b) ==> !StrLess(b, a)
    decreases |a|
  {
    if a != [] && b != [] && a[0] == b[0] {
      StrLessAsymmetric(a[1..], b[1..]);
    }
  }

  lemma {:induction false} StrLessTransitive(a: string, b: string, c: string)
    requires StrLess(a, b) && StrLess(b, c)
    ensures StrLess(a, c)
    decreases |a|
  {
    if a != [] && a[0] == b[0] && b[0] == c[0] {
      StrLessTransitive(a[1..], b[1..], c[1..]);
    }
  }

  lemma {:induction false} StrLessConnected(a: string, b: string)
    requires a != b
    ensures StrLess(a, b) || StrLess(b, a)
    decreases |a|
  {
    if a != [] && b != [] && a[0] == b[0] {
      assert a == [a[0]] + a[1..] && b == [b[0]] + b[1..];
      StrLessConnected(a[1..], b[1..]);
    }
  }

  /** `a` comes before `b` in dictionary order: `a` is a proper prefix of `b`, or at the first
      position where they differ `a` holds the smaller character. */
  predicate Lexicographic(a: string, b: string) {
    (|a| < |b| && a == b[..|a|])
    || exists k :: 0 <= k < |a| && k < |b| && a[..k] == b[..k] && a[k] < b[k]
  }

  /** String `<` is dictionary order. */
  lemma {:induction false} StrLessIsLexicographic(a: string, b: string)
    ensures StrLess(a, b) <==> Lexicographic(a, b)
    decreases |a|
  {
    if b == [] {
    } else if a == [] {
      assert a == b[..0];
    } else if a[0] != b[0] {
      if a[0] < b[0] {
        assert a[..0] == b[..0];
      }
    } else {
      var a', b' := a[1..], b[1..];
      StrLessIsLexicographic(a', b');
      if Lexicographic(a', b') {
        if |a'| < |b'| && a' == b'[..|a'|] {
          assert a == b[..|a|];
        } else {
          var k :| 0 <= k < |a'| && k < |b'| && a'[..k] == b'[..k] && a'[k] < b'[k];
          assert a[..k + 1] == [a[0]] + a'[..k] && b[..k + 1] == [b[0]] + b'[..k];
          assert a[k + 1] == a'[k] && b[k + 1] == b'[k];
        }
      }
      if Lexicographic(a, b) {
        if |a| < |b| && a == b[..|a|] {
          assert a' == b'[..|a'|];
        } else {
          var k :| 0 <= k < |a| && k < |b| && a[..k] == b[..k] && a[k] < b[k];
          assert k > 0;
          assert a'[..k - 1] == a[..k][1..] && b'[..k - 1] == b[..k][1..];
          assert a'[k - 1] == a[k] && b'[k - 1] == b[k];
        }
      }
    }
  }

  /** `<` never holds both ways between two column values. */
  lemma LessAsymmetric(x: Value, y: Value)
    ensures Less(x, y) ==> !Less(y, x)
  {
    if x.Str? && y.Str? {
      StrLessAsymmetric(x.s, y.s);
    }
  }

  lemma LessIrreflexive(x: Value)
    ensures !Less(x, x)
  {
    if x.Str? {
      StrLessIrreflexive(x.s);
    }
  }

  lemma LessTransitive(x: Value, y: Value, z: Value)
    requires Less(x, y) && Less(y, z)
    ensures Less(x, z)
  {
    if x.Str? {
      StrLessTransitive(x.s, y.s, z.s);
    }
  }

  /** Two different values of one column are always ordered one way or the other. */
  lemma LessConnected(x: Value, y: Value)
    requires SameKind(x, y) && x != y
    ensures Less(x, y) || Less(y, x)
  {
    if x.Str? {
      StrLessConnected(x.s, y.s);
    }
  }
}
