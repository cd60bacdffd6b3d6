/** The binary-operator precedence table BINOP_PRECEDENCE as internal.cpp seeds it. The
    parser reads it and the code generator adds user-defined operators to it. */
module Precedence {

  type Table = map<string, int>

  /** BINOP_PRECEDENCE, one table shared by the parser, which reads it, and the code
      generator, which adds user-defined operators to it. */
  class BinopTable {
    var table: Table

    /** The table as internal.cpp initialises it. */
    constructor ()
      ensures table == Seed
    {
      table := Seed;
    }
  }

  const Seed: Table := map["=" := 2, "<" := 10, ">" := 10, "+" := 20, "-" := 20, "*" := 40]

  /** Exactly the six built-in spellings are seeded, with their values. */
  lemma SeedContents()
    ensures Seed.Keys == {"=", "<", ">", "+", "-", "*"}
    ensures |Seed| == 6
    ensures Seed["="] == 2 && Seed["<"] == 10 && Seed[">"] == 10
    ensures Seed["+"] == 20 && Seed["-"] == 20 && Seed["*"] == 40
  {
    var ks: set<string> := {"=", "<", ">", "+", "-", "*"};
    assert Seed.Keys == ks;
    assert "=" != "<" && "<" != ">" && ">" != "+" && "+" != "-" && "-" != "*";
    assert |ks| == 6 by {
      assert ks == {"="} + {"<"} + {">"} + {"+"} + {"-"} + {"*"};
    }
  }

  /** Every seeded precedence is positive, so the parser treats each as a binary operator. */
  lemma SeedPositive()
    ensures forall op :: op in Seed ==> Seed[op] > 0
  {
  }

  /** `*` binds tighter than `+` and `-`, which bind tighter than `<` and `>`, which bind
      tighter than `=`; `+`/`-` and `<`/`>` tie. */
  lemma SeedLadder()
    ensures Seed["*"] > Seed["+"] == Seed["-"] > Seed["<"] == Seed[">"] > Seed["="]
  {
  }
}
