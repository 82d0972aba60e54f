/**
 * The `Indentation` value type: an amount and an indentation type, and its
 * rendering to a whitespace string (`__toString`).
 */
module Style {

  datatype IndentType = Space | Tab | Unknown

  /** The constructor is the datatype constructor; `getAmount` and `getType`
      are the fields `amount` and `indentType`. */
  datatype Indentation = Indentation(amount: nat, indentType: IndentType)

  /** `str_repeat(u, n)`: `n` copies of `u` laid end to end. */
  function Repeat(u: string, n: nat): (r: string)
    ensures |r| == n * |u|
  {
    if n == 0 then [] else u + Repeat(u, n - 1)
  }

  lemma {:induction false} RepeatChar(c: char, n: nat)
    ensures |Repeat([c], n)| == n
    ensures forall i :: 0 <= i < n ==> Repeat([c], n)[i] == c
  {
    if n > 0 {
      RepeatChar(c, n - 1);
    }
  }

  /** `Repeat(u, n + 1)` is also `Repeat(u, n)` followed by one more `u`. */
  lemma {:induction false} RepeatSnoc(u: string, n: nat)
    ensures Repeat(u, n + 1) == Repeat(u, n) + u
  {
    if n > 0 {
      RepeatSnoc(u, n - 1);
    }
  }

  /** The character one unit of the given type is made of. */
  function IndentChar(t: IndentType): char
  {
    if t == Space then ' ' else '\t'
  }

  /** `__toString`: empty for amount 0 or the unknown type, else `amount`
      copies of a space or of a tab. */
  function Render(i: Indentation): (r: string)
    ensures i.amount == 0 || i.indentType == Unknown <==> r == []
    ensures i.amount != 0 && i.indentType != Unknown ==> |r| == i.amount
    ensures i.indentType == Space ==> forall k :: 0 <= k < |r| ==> r[k] == ' '
    ensures i.indentType == Tab ==> forall k :: 0 <= k < |r| ==> r[k] == '\t'
  {
    if i.amount == 0 || i.indentType == Unknown then []
    else
      RepeatChar(IndentChar(i.indentType), i.amount);
      Repeat([IndentChar(i.indentType)], i.amount)
  }

  /** The two styles of the constructor-and-getters test. */
  lemma RenderExamples()
    ensures Render(Indentation(4, Space)) == "    "
    ensures Render(Indentation(1, Tab)) == "\t"
  {
    RepeatChar(' ', 4);
    RepeatChar('\t', 1);
  }
}
