/**
 * The SQL text the listing handlers assemble: a `join` of condition strings
 * and a count of the `?` placeholders, which the driver pairs one-to-one with
 * the parameter array.
 */
module SqlText {

  /** Number of `?` placeholders in a statement. */
  function Placeholders(s: string): nat {
    multiset(s)['?']
  }

  /** A string without `?` holds no placeholder. */
  lemma NoPlaceholders(s: string)
    requires '?' !in s
    ensures Placeholders(s) == 0
  {
    assert '?' !in multiset(s);
  }

  /** Placeholders add up over concatenation. */
  lemma PlaceholdersConcat(a: string, b: string)
    ensures Placeholders(a + b) == Placeholders(a) + Placeholders(b)
  {
    assert multiset(a + b) == multiset(a) + multiset(b);
  }

  /** Text wrapped between two placeholder-free pieces keeps its count. */
  lemma WrappedPlaceholders(head: string, middle: string, tail: string)
    requires Placeholders(head) == 0 && Placeholders(tail) == 0
    ensures Placeholders(head + middle + tail) == Placeholders(middle)
  {
    PlaceholdersConcat(head, middle);
    PlaceholdersConcat(head + middle, tail);
  }

  /** A lone `?` is one placeholder. */
  lemma OnePlaceholder()
    ensures Placeholders("?") == 1
  {
    assert multiset("?") == multiset{'?'};
  }

  /** `parts.join(sep)` of JavaScript. */
  function Join(parts: seq<string>, sep: string): string {
    if |parts| == 0 then ""
    else if |parts| == 1 then parts[0]
    else parts[0] + sep + Join(parts[1..], sep)
  }

  /** Total placeholders over a list of strings. */
  function PlaceholdersOfAll(parts: seq<string>): nat {
    if parts == [] then 0 else Placeholders(parts[0]) + PlaceholdersOfAll(parts[1..])
  }

  /** Joining with a separator that holds no placeholder adds none. */
  lemma {:induction false} PlaceholdersJoin(parts: seq<string>, sep: string)
    requires Placeholders(sep) == 0
    ensures Placeholders(Join(parts, sep)) == PlaceholdersOfAll(parts)
  {
    if |parts| > 1 {
      PlaceholdersJoin(parts[1..], sep);
      assert Placeholders(parts[0] + sep + Join(parts[1..], sep))
        == Placeholders(parts[0]) + Placeholders(sep) + Placeholders(Join(parts[1..], sep));
    } else if |parts| == 1 {
      assert parts[1..] == [];
    }
  }
}
