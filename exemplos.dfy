/** The analysis on the zoo's own tables: the outcome of concrete requests,
    derived enclosure by enclosure from the rules. Each enclosure's decision
    is a lemma of its own; the descriptions are written as Descricao, the
    template literal of the code, e.g. Descricao(1, 6, 10) for
    "Recinto 1 (espaço livre: 6 total: 10)". */
module ZooExemplos {
  import Cadeia
  import opened Zoo
  import opened ZooPropriedades

  /** The entry list of an enclosure's decision. */
  function Entradas(o: Option<Viavel>): seq<Viavel>
  {
    if o.Some? then [o.value] else []
  }

  /** Deciding one more enclosure appends its entry, if any, to those of
      the enclosures before it; `j` is `k + 1`, passed on its own so that
      callers get the prefix `recintos[..j]` as written. */
  lemma AdmitidosPasso(recintos: seq<Recinto>, animal: string, esp: Especie, quantidade: int,
                       k: nat, j: nat, antes: seq<Viavel>, d: Option<Viavel>)
    requires |esp.biomas| > 0 && k < |recintos| && j == k + 1
    requires Admitidos(recintos[..k], animal, esp, quantidade) == antes
    requires AvaliaRecinto(recintos[k], animal, esp, quantidade) == d
    ensures Admitidos(recintos[..j], animal, esp, quantidade) == antes + Entradas(d)
  {
    assert recintos[..j][..k] == recintos[..k];
  }

  /** On a table of five enclosures, the admitted entries are the five
      decisions concatenated in table order. */
  lemma AdmitidosDeCinco(recintos: seq<Recinto>, animal: string, esp: Especie, quantidade: int,
                         d0: Option<Viavel>, d1: Option<Viavel>, d2: Option<Viavel>, d3: Option<Viavel>, d4: Option<Viavel>)
    requires |recintos| == 5 && |esp.biomas| > 0
    requires AvaliaRecinto(recintos[0], animal, esp, quantidade) == d0
    requires AvaliaRecinto(recintos[1], animal, esp, quantidade) == d1
    requires AvaliaRecinto(recintos[2], animal, esp, quantidade) == d2
    requires AvaliaRecinto(recintos[3], animal, esp, quantidade) == d3
    requires AvaliaRecinto(recintos[4], animal, esp, quantidade) == d4
    ensures Admitidos(recintos, animal, esp, quantidade)
            == Entradas(d0) + Entradas(d1) + Entradas(d2) + Entradas(d3) + Entradas(d4)
  {
    assert recintos[..0] == [];
    AdmitidosPasso(recintos, animal, esp, quantidade, 0, 1, [], d0);
    assert [] + Entradas(d0) == Entradas(d0);
    AdmitidosPasso(recintos, animal, esp, quantidade, 1, 2, Entradas(d0), d1);
    AdmitidosPasso(recintos, animal, esp, quantidade, 2, 3, Entradas(d0) + Entradas(d1), d2);
    AdmitidosPasso(recintos, animal, esp, quantidade, 3, 4, Entradas(d0) + Entradas(d1) + Entradas(d2), d3);
    AdmitidosPasso(recintos, animal, esp, quantidade, 4, 5, Entradas(d0) + Entradas(d1) + Entradas(d2) + Entradas(d3), d4);
    assert recintos[..5] == recintos;
  }

  // The descriptions that the scenarios below produce, spelled out as the
  // strings the analysis returns.

  lemma Descricao1Livre6Total10()
    ensures Descricao(1, 6, 10) == "Recinto 1 (espaço livre: 6 total: 10)"
  {
  }

  lemma Descricao1Livre5Total10()
    ensures Descricao(1, 5, 10) == "Recinto 1 (espaço livre: 5 total: 10)"
  {
  }

  lemma Descricao1Livre3Total10()
    ensures Descricao(1, 3, 10) == "Recinto 1 (espaço livre: 3 total: 10)"
  {
  }

  lemma Descricao2Livre3Total5()
    ensures Descricao(2, 3, 5) == "Recinto 2 (espaço livre: 3 total: 5)"
  {
  }

  lemma Descricao3Livre3Total7()
    ensures Descricao(3, 3, 7) == "Recinto 3 (espaço livre: 3 total: 7)"
  {
  }

  lemma Descricao3Livre2Total7()
    ensures Descricao(3, 2, 7) == "Recinto 3 (espaço livre: 2 total: 7)"
  {
  }

  lemma Descricao3Livre1Total7()
    ensures Descricao(3, 1, 7) == "Recinto 3 (espaço livre: 1 total: 7)"
  {
  }

  lemma Descricao4Livre5Total8()
    ensures Descricao(4, 5, 8) == "Recinto 4 (espaço livre: 5 total: 8)"
  {
  }

  lemma Descricao4Livre0Total8()
    ensures Descricao(4, 0, 8) == "Recinto 4 (espaço livre: 0 total: 8)"
  {
  }

  lemma Descricao5Livre3Total9()
    ensures Descricao(5, 3, 9) == "Recinto 5 (espaço livre: 3 total: 9)"
  {
  }

  /** The species table gives every species a primary biome. */
  lemma CatalogoPadraoValido()
    ensures CatalogoValido(ANIMAIS)
  {
  }

  /** The species table maps each name to its row. */
  lemma EspeciesDaTabela()
    ensures "LEAO" in ANIMAIS && ANIMAIS["LEAO"] == ESPECIE_LEAO
    ensures "CROCODILO" in ANIMAIS && ANIMAIS["CROCODILO"] == ESPECIE_CROCODILO
    ensures "MACACO" in ANIMAIS && ANIMAIS["MACACO"] == ESPECIE_MACACO
    ensures "HIPOPOTAMO" in ANIMAIS && ANIMAIS["HIPOPOTAMO"] == ESPECIE_HIPOPOTAMO
  {
  }

  /** The enclosure numbers of the table are distinct. */
  lemma NumerosPadraoDistintos()
    ensures NumerosDistintos(RECINTOS)
  {
  }

  /** The label "floresta" does not contain "savana". */
  lemma FlorestaNaoEhSavana()
    ensures !Cadeia.Contem("floresta", "savana")
  {
    Cadeia.ContemCaractere("floresta", "savana", 'v');
  }

  /** The label "rio" does not contain "savana". */
  lemma RioNaoEhSavana()
    ensures !Cadeia.Contem("rio", "savana")
  {
    Cadeia.ContemComprimento("rio", "savana");
  }

  /** The label "savana e rio" contains "savana". */
  lemma SavanaERioEhSavana()
    ensures Cadeia.Contem("savana e rio", "savana")
  {
    assert "savana" <= "savana e rio";
  }

  /** Enclosure 5 holds a lion, a carnivore. */
  lemma Recinto5TemLeao()
    ensures TemCarnivoro(RECINTOS[4])
  {
    assert RECINTOS[4].animais[0] in CARNIVOROS;
  }

  /** Descriptions of enclosures with single-digit numbers are ordered by number. */
  lemma DescricaoAntes(n1: nat, l1: nat, t1: nat, n2: nat, l2: nat, t2: nat)
    requires n1 < n2 < 10
    ensures Cadeia.Compara(Descricao(n1, l1, t1), Descricao(n2, l2, t2)) < 0
  {
    var p := "Recinto ";
    var s := Cadeia.Decimal(n1) + (" (espaço livre: " + (Cadeia.Decimal(l1) + (" total: " + (Cadeia.Decimal(t1) + ")"))));
    var t := Cadeia.Decimal(n2) + (" (espaço livre: " + (Cadeia.Decimal(l2) + (" total: " + (Cadeia.Decimal(t2) + ")"))));
    Cadeia.ComparaPrefixoComum(p, s, t);
    assert s[0] == Cadeia.Digito(n1) && t[0] == Cadeia.Digito(n2);
  }

  // The five decisions for one monkey.

  lemma UmMacacoRecinto1()
    ensures AvaliaRecinto(RECINTOS[0], "MACACO", ESPECIE_MACACO, 1) == Some(Viavel(Descricao(1, 6, 10), true))
  {
  }

  lemma UmMacacoRecinto2()
    ensures AvaliaRecinto(RECINTOS[1], "MACACO", ESPECIE_MACACO, 1) == None
  {
  }

  lemma UmMacacoRecinto3()
    ensures AvaliaRecinto(RECINTOS[2], "MACACO", ESPECIE_MACACO, 1) == Some(Viavel(Descricao(3, 3, 7), false))
  {
    SavanaERioEhSavana();
  }

  lemma UmMacacoRecinto4()
    ensures AvaliaRecinto(RECINTOS[3], "MACACO", ESPECIE_MACACO, 1) == None
  {
    RioNaoEhSavana();
  }

  lemma UmMacacoRecinto5()
    ensures AvaliaRecinto(RECINTOS[4], "MACACO", ESPECIE_MACACO, 1) == None
  {
    Recinto5TemLeao();
  }

  /** The entries admitted for one monkey, in table order. */
  lemma AdmitidosUmMacaco()
    ensures Admitidos(RECINTOS, "MACACO", ESPECIE_MACACO, 1) == [Viavel(Descricao(1, 6, 10), true), Viavel(Descricao(3, 3, 7), false)]
  {
    var v1 := Viavel(Descricao(1, 6, 10), true);
    var v3 := Viavel(Descricao(3, 3, 7), false);
    UmMacacoRecinto1();
    UmMacacoRecinto2();
    UmMacacoRecinto3();
    UmMacacoRecinto4();
    UmMacacoRecinto5();
    AdmitidosDeCinco(RECINTOS, "MACACO", ESPECIE_MACACO, 1, Some(v1), None, Some(v3), None, None);
    assert Entradas(Some(v1)) == [v1];
    assert [v1] + Entradas(None) == [v1];
    assert [v1] + Entradas(Some(v3)) == [v1, v3];
    assert [v1, v3] + Entradas(None) == [v1, v3];
  }

  // The five decisions for two monkeys.

  lemma DoisMacacosRecinto1()
    ensures AvaliaRecinto(RECINTOS[0], "MACACO", ESPECIE_MACACO, 2) == Some(Viavel(Descricao(1, 5, 10), true))
  {
  }

  lemma DoisMacacosRecinto2()
    ensures AvaliaRecinto(RECINTOS[1], "MACACO", ESPECIE_MACACO, 2) == Some(Viavel(Descricao(2, 3, 5), false))
  {
  }

  lemma DoisMacacosRecinto3()
    ensures AvaliaRecinto(RECINTOS[2], "MACACO", ESPECIE_MACACO, 2) == Some(Viavel(Descricao(3, 2, 7), false))
  {
    SavanaERioEhSavana();
  }

  lemma DoisMacacosRecinto4()
    ensures AvaliaRecinto(RECINTOS[3], "MACACO", ESPECIE_MACACO, 2) == None
  {
    RioNaoEhSavana();
  }

  lemma DoisMacacosRecinto5()
    ensures AvaliaRecinto(RECINTOS[4], "MACACO", ESPECIE_MACACO, 2) == None
  {
    Recinto5TemLeao();
  }

  /** The entries admitted for two monkeys, in table order. */
  lemma AdmitidosDoisMacacos()
    ensures Admitidos(RECINTOS, "MACACO", ESPECIE_MACACO, 2) == [Viavel(Descricao(1, 5, 10), true), Viavel(Descricao(2, 3, 5), false), Viavel(Descricao(3, 2, 7), false)]
  {
    var v1 := Viavel(Descricao(1, 5, 10), true);
    var v2 := Viavel(Descricao(2, 3, 5), false);
    var v3 := Viavel(Descricao(3, 2, 7), false);
    DoisMacacosRecinto1();
    DoisMacacosRecinto2();
    DoisMacacosRecinto3();
    DoisMacacosRecinto4();
    DoisMacacosRecinto5();
    AdmitidosDeCinco(RECINTOS, "MACACO", ESPECIE_MACACO, 2, Some(v1), Some(v2), Some(v3), None, None);
    assert Entradas(Some(v1)) == [v1];
    assert [v1] + Entradas(Some(v2)) == [v1, v2];
    assert [v1, v2] + Entradas(Some(v3)) == [v1, v2, v3];
    assert [v1, v2, v3] + Entradas(None) == [v1, v2, v3];
  }

  // The five decisions for one crocodile.

  lemma UmCrocodiloRecinto1()
    ensures AvaliaRecinto(RECINTOS[0], "CROCODILO", ESPECIE_CROCODILO, 1) == None
  {
  }

  lemma UmCrocodiloRecinto2()
    ensures AvaliaRecinto(RECINTOS[1], "CROCODILO", ESPECIE_CROCODILO, 1) == None
  {
  }

  lemma UmCrocodiloRecinto3()
    ensures AvaliaRecinto(RECINTOS[2], "CROCODILO", ESPECIE_CROCODILO, 1) == None
  {
  }

  lemma UmCrocodiloRecinto4()
    ensures AvaliaRecinto(RECINTOS[3], "CROCODILO", ESPECIE_CROCODILO, 1) == Some(Viavel(Descricao(4, 5, 8), true))
  {
  }

  lemma UmCrocodiloRecinto5()
    ensures AvaliaRecinto(RECINTOS[4], "CROCODILO", ESPECIE_CROCODILO, 1) == None
  {
  }

  /** The entries admitted for one crocodile, in table order. */
  lemma AdmitidosUmCrocodilo()
    ensures Admitidos(RECINTOS, "CROCODILO", ESPECIE_CROCODILO, 1) == [Viavel(Descricao(4, 5, 8), true)]
  {
    var v4 := Viavel(Descricao(4, 5, 8), true);
    UmCrocodiloRecinto1();
    UmCrocodiloRecinto2();
    UmCrocodiloRecinto3();
    UmCrocodiloRecinto4();
    UmCrocodiloRecinto5();
    AdmitidosDeCinco(RECINTOS, "CROCODILO", ESPECIE_CROCODILO, 1, None, None, None, Some(v4), None);
    assert Entradas(None) == [];
    assert [] + Entradas(None) == [];
    assert [] + Entradas(Some(v4)) == [v4];
    assert [v4] + Entradas(None) == [v4];
  }

  // The five decisions for two hippopotamuses.

  lemma DoisHipopotamosRecinto1()
    ensures AvaliaRecinto(RECINTOS[0], "HIPOPOTAMO", ESPECIE_HIPOPOTAMO, 2) == None
  {
  }

  lemma DoisHipopotamosRecinto2()
    ensures AvaliaRecinto(RECINTOS[1], "HIPOPOTAMO", ESPECIE_HIPOPOTAMO, 2) == None
  {
    FlorestaNaoEhSavana();
  }

  lemma DoisHipopotamosRecinto3()
    ensures AvaliaRecinto(RECINTOS[2], "HIPOPOTAMO", ESPECIE_HIPOPOTAMO, 2) == None
  {
  }

  lemma DoisHipopotamosRecinto4()
    ensures AvaliaRecinto(RECINTOS[3], "HIPOPOTAMO", ESPECIE_HIPOPOTAMO, 2) == Some(Viavel(Descricao(4, 0, 8), false))
  {
  }

  lemma DoisHipopotamosRecinto5()
    ensures AvaliaRecinto(RECINTOS[4], "HIPOPOTAMO", ESPECIE_HIPOPOTAMO, 2) == None
  {
  }

  /** The entries admitted for two hippopotamuses, in table order. */
  lemma AdmitidosDoisHipopotamos()
    ensures Admitidos(RECINTOS, "HIPOPOTAMO", ESPECIE_HIPOPOTAMO, 2) == [Viavel(Descricao(4, 0, 8), false)]
  {
    var v4 := Viavel(Descricao(4, 0, 8), false);
    DoisHipopotamosRecinto1();
    DoisHipopotamosRecinto2();
    DoisHipopotamosRecinto3();
    DoisHipopotamosRecinto4();
    DoisHipopotamosRecinto5();
    AdmitidosDeCinco(RECINTOS, "HIPOPOTAMO", ESPECIE_HIPOPOTAMO, 2, None, None, None, Some(v4), None);
    assert Entradas(None) == [];
    assert [] + Entradas(None) == [];
    assert [] + Entradas(Some(v4)) == [v4];
    assert [v4] + Entradas(None) == [v4];
  }

  // The five decisions for one lion.

  lemma UmLeaoRecinto1()
    ensures AvaliaRecinto(RECINTOS[0], "LEAO", ESPECIE_LEAO, 1) == Some(Viavel(Descricao(1, 3, 10), true))
  {
  }

  lemma UmLeaoRecinto2()
    ensures AvaliaRecinto(RECINTOS[1], "LEAO", ESPECIE_LEAO, 1) == None
  {
    FlorestaNaoEhSavana();
    assert !PassaBioma(RECINTOS[1], ESPECIE_LEAO);
  }

  lemma UmLeaoRecinto3()
    ensures AvaliaRecinto(RECINTOS[2], "LEAO", ESPECIE_LEAO, 1) == Some(Viavel(Descricao(3, 1, 7), false))
  {
    SavanaERioEhSavana();
  }

  lemma UmLeaoRecinto4()
    ensures AvaliaRecinto(RECINTOS[3], "LEAO", ESPECIE_LEAO, 1) == None
  {
    RioNaoEhSavana();
  }

  lemma UmLeaoRecinto5()
    ensures AvaliaRecinto(RECINTOS[4], "LEAO", ESPECIE_LEAO, 1) == Some(Viavel(Descricao(5, 3, 9), true))
  {
  }

  /** The entries admitted for one lion, in table order. */
  lemma AdmitidosUmLeao()
    ensures Admitidos(RECINTOS, "LEAO", ESPECIE_LEAO, 1) == [Viavel(Descricao(1, 3, 10), true), Viavel(Descricao(3, 1, 7), false), Viavel(Descricao(5, 3, 9), true)]
  {
    var v1 := Viavel(Descricao(1, 3, 10), true);
    var v3 := Viavel(Descricao(3, 1, 7), false);
    var v5 := Viavel(Descricao(5, 3, 9), true);
    UmLeaoRecinto1();
    UmLeaoRecinto2();
    UmLeaoRecinto3();
    UmLeaoRecinto4();
    UmLeaoRecinto5();
    AdmitidosDeCinco(RECINTOS, "LEAO", ESPECIE_LEAO, 1, Some(v1), None, Some(v3), None, Some(v5));
    EntradasAlternadas(v1, v3, v5);
  }

  /** Admitting the first, third and fifth of five enclosures. */
  lemma EntradasAlternadas(v1: Viavel, v3: Viavel, v5: Viavel)
    ensures Entradas(Some(v1)) + Entradas(None) + Entradas(Some(v3)) + Entradas(None) + Entradas(Some(v5)) == [v1, v3, v5]
  {
    assert Entradas(Some(v1)) == [v1];
    assert [v1] + Entradas(None) == [v1];
    assert [v1] + Entradas(Some(v3)) == [v1, v3];
    assert [v1, v3] + Entradas(None) == [v1, v3];
    assert [v1, v3] + Entradas(Some(v5)) == [v1, v3, v5];
  }

  // The five decisions for ten monkeys.

  lemma DezMacacosRecinto1()
    ensures AvaliaRecinto(RECINTOS[0], "MACACO", ESPECIE_MACACO, 10) == None
  {
  }

  lemma DezMacacosRecinto2()
    ensures AvaliaRecinto(RECINTOS[1], "MACACO", ESPECIE_MACACO, 10) == None
  {
  }

  lemma DezMacacosRecinto3()
    ensures AvaliaRecinto(RECINTOS[2], "MACACO", ESPECIE_MACACO, 10) == None
  {
  }

  lemma DezMacacosRecinto4()
    ensures AvaliaRecinto(RECINTOS[3], "MACACO", ESPECIE_MACACO, 10) == None
  {
    RioNaoEhSavana();
  }

  lemma DezMacacosRecinto5()
    ensures AvaliaRecinto(RECINTOS[4], "MACACO", ESPECIE_MACACO, 10) == None
  {
  }

  /** The entries admitted for ten monkeys, in table order. */
  lemma AdmitidosDezMacacos()
    ensures Admitidos(RECINTOS, "MACACO", ESPECIE_MACACO, 10) == []
  {
    DezMacacosRecinto1();
    DezMacacosRecinto2();
    DezMacacosRecinto3();
    DezMacacosRecinto4();
    DezMacacosRecinto5();
    AdmitidosDeCinco(RECINTOS, "MACACO", ESPECIE_MACACO, 10, None, None, None, None, None);
    assert Entradas(None) == [];
    assert [] + Entradas(None) == [];
  }

  /** The descriptions of three entries. */
  lemma TextosDeTres(x: Viavel, y: Viavel, z: Viavel)
    ensures Textos([x, y, z]) == [x.texto, y.texto, z.texto]
  {
    var ts := Textos([x, y, z]);
    assert ts[0] == x.texto && ts[1] == y.texto && ts[2] == z.texto;
  }

  /** Two entries in order under the comparator form an ordered sequence. */
  lemma OrdenadaDois(x: Viavel, y: Viavel)
    requires ComparaViaveis(x, y) <= 0
    ensures Ordenada([x, y])
  {
    OrdenadaPeloComparador([x, y]);
  }

  /** The descriptions of two entries. */
  lemma TextosDeDois(x: Viavel, y: Viavel)
    ensures Textos([x, y]) == [x.texto, y.texto]
  {
    var ts := Textos([x, y]);
    assert ts[0] == x.texto && ts[1] == y.texto;
  }

  /** Three entries in order under the comparator form an ordered sequence. */
  lemma OrdenadaTres(x: Viavel, y: Viavel, z: Viavel)
    requires ComparaViaveis(x, y) <= 0 && ComparaViaveis(y, z) <= 0
    ensures Ordenada([x, y, z])
  {
    ComparaViaveisTransitiva(x, y, z);
    OrdenadaPeloComparador([x, y, z]);
  }

  /** Swapping the last two of three entries keeps the same entries. */
  lemma TrocaUltimos(a: Viavel, b: Viavel, c: Viavel)
    ensures multiset([a, c, b]) == multiset([a, b, c])
  {
  }

  /** The result when one entry is admitted. */
  lemma AnaliseUm(recintos: seq<Recinto>, animais: map<string, Especie>, animal: string, quantidade: real, a: Viavel)
    requires CatalogoValido(animais) && animal in animais && QuantidadeValida(quantidade)
    requires Admitidos(recintos, animal, animais[animal], quantidade.Floor) == [a]
    ensures Analise(recintos, animais, animal, quantidade) == RecintosViaveis([a.texto])
  {
    AnaliseOrdenada(recintos, animais, animal, quantidade, [a]);
    assert Textos([a]) == [a.texto];
  }

  /** The result when two entries are admitted already in order. */
  lemma AnaliseDois(recintos: seq<Recinto>, animais: map<string, Especie>, animal: string, quantidade: real,
                    a: Viavel, b: Viavel)
    requires CatalogoValido(animais) && animal in animais && QuantidadeValida(quantidade)
    requires Admitidos(recintos, animal, animais[animal], quantidade.Floor) == [a, b]
    requires ComparaViaveis(a, b) <= 0
    ensures Analise(recintos, animais, animal, quantidade) == RecintosViaveis([a.texto, b.texto])
  {
    OrdenadaDois(a, b);
    AnaliseOrdenada(recintos, animais, animal, quantidade, [a, b]);
    TextosDeDois(a, b);
  }

  /** The result when three entries `a`, `b`, `c` are admitted and `x`, `y`,
      `z` is their order under the comparator. */
  lemma AnaliseTres(recintos: seq<Recinto>, animais: map<string, Especie>, animal: string, quantidade: real,
                    a: Viavel, b: Viavel, c: Viavel, x: Viavel, y: Viavel, z: Viavel)
    requires CatalogoValido(animais) && animal in animais && QuantidadeValida(quantidade)
    requires Admitidos(recintos, animal, animais[animal], quantidade.Floor) == [a, b, c]
    requires multiset([x, y, z]) == multiset([a, b, c])
    requires ComparaViaveis(x, y) <= 0 && ComparaViaveis(y, z) <= 0
    ensures Analise(recintos, animais, animal, quantidade) == RecintosViaveis([x.texto, y.texto, z.texto])
  {
    OrdenadaTres(x, y, z);
    AnaliseOrdenada(recintos, animais, animal, quantidade, [x, y, z]);
    TextosDeTres(x, y, z);
  }

  /** One monkey: enclosure 1 (exact biome) and then enclosure 3, whose
      label contains "savana"; enclosure 2 is refused to a lone monkey. */
  lemma UmMacaco(recintos: seq<Recinto>, animais: map<string, Especie>)
    requires recintos == RECINTOS && animais == ANIMAIS
    ensures CatalogoValido(animais)
    ensures Analise(recintos, animais, "MACACO", 1.0) == RecintosViaveis([Descricao(1, 6, 10), Descricao(3, 3, 7)])
  {
    CatalogoPadraoValido();
    EspeciesDaTabela();
    AdmitidosUmMacaco();
    assert (1.0).Floor == 1;
    AnaliseDois(recintos, animais, "MACACO", 1.0, Viavel(Descricao(1, 6, 10), true), Viavel(Descricao(3, 3, 7), false));
  }

  /** Two monkeys: enclosure 1 (exact biome), then enclosures 2 and 3 in
      the order of their descriptions. */
  lemma DoisMacacos(recintos: seq<Recinto>, animais: map<string, Especie>)
    requires recintos == RECINTOS && animais == ANIMAIS
    ensures CatalogoValido(animais)
    ensures Analise(recintos, animais, "MACACO", 2.0)
            == RecintosViaveis([Descricao(1, 5, 10), Descricao(2, 3, 5), Descricao(3, 2, 7)])
  {
    CatalogoPadraoValido();
    EspeciesDaTabela();
    AdmitidosDoisMacacos();
    var a: Viavel, b: Viavel, c: Viavel := Viavel(Descricao(1, 5, 10), true), Viavel(Descricao(2, 3, 5), false), Viavel(Descricao(3, 2, 7), false);
    DescricaoAntes(2, 3, 5, 3, 2, 7);
    assert (2.0).Floor == 2;
    AnaliseTres(recintos, animais, "MACACO", 2.0, a, b, c, a, b, c);
  }

  /** One crocodile: only the river enclosure, whose biome is exactly its own. */
  lemma UmCrocodilo(recintos: seq<Recinto>, animais: map<string, Especie>)
    requires recintos == RECINTOS && animais == ANIMAIS
    ensures CatalogoValido(animais)
    ensures Analise(recintos, animais, "CROCODILO", 1.0) == RecintosViaveis([Descricao(4, 5, 8)])
  {
    CatalogoPadraoValido();
    EspeciesDaTabela();
    AdmitidosUmCrocodilo();
    assert (1.0).Floor == 1;
    AnaliseUm(recintos, animais, "CROCODILO", 1.0, Viavel(Descricao(4, 5, 8), true));
  }

  /** Two hippopotamuses fill the river enclosure; the mixed "savana e rio"
      enclosure has 5 units free and they need 8 plus the shared-enclosure unit. */
  lemma DoisHipopotamos(recintos: seq<Recinto>, animais: map<string, Especie>)
    requires recintos == RECINTOS && animais == ANIMAIS
    ensures CatalogoValido(animais)
    ensures Analise(recintos, animais, "HIPOPOTAMO", 2.0) == RecintosViaveis([Descricao(4, 0, 8)])
  {
    CatalogoPadraoValido();
    EspeciesDaTabela();
    AdmitidosDoisHipopotamos();
    assert (2.0).Floor == 2;
    AnaliseUm(recintos, animais, "HIPOPOTAMO", 2.0, Viavel(Descricao(4, 0, 8), false));
  }

  /** One lion: the sort moves enclosure 5 (exact biome) ahead of enclosure 3.
      The lion joins the monkey of enclosure 1 and the gazelle of enclosure 3,
      since the carnivore rule only looks at the residents. */
  lemma UmLeao(recintos: seq<Recinto>, animais: map<string, Especie>)
    requires recintos == RECINTOS && animais == ANIMAIS
    ensures CatalogoValido(animais)
    ensures Analise(recintos, animais, "LEAO", 1.0)
            == RecintosViaveis([Descricao(1, 3, 10), Descricao(5, 3, 9), Descricao(3, 1, 7)])
  {
    CatalogoPadraoValido();
    EspeciesDaTabela();
    AdmitidosUmLeao();
    var a: Viavel, b: Viavel, c: Viavel := Viavel(Descricao(1, 3, 10), true), Viavel(Descricao(3, 1, 7), false), Viavel(Descricao(5, 3, 9), true);
    DescricaoAntes(1, 3, 10, 5, 3, 9);
    assert (1.0).Floor == 1;
    TrocaUltimos(a, b, c);
    AnaliseTres(recintos, animais, "LEAO", 1.0, a, b, c, a, c, b);
  }

  /** The three errors on the zoo's tables: an unknown species is reported
      before a bad quantity is looked at. */
  /** An unknown species is refused, even with a quantity that would
      itself be refused. */
  lemma ErrosAnimal(recintos: seq<Recinto>, animais: map<string, Especie>)
    requires recintos == RECINTOS && animais == ANIMAIS
    ensures Analise(recintos, animais, "UNICORNIO", 1.0) == Erro(ANIMAL_INVALIDO)
    ensures Analise(recintos, animais, "UNICORNIO", 0.0) == Erro(ANIMAL_INVALIDO)
  {
  }

  /** Zero, negative and fractional quantities of a known species are
      refused. */
  lemma ErrosQuantidade(recintos: seq<Recinto>, animais: map<string, Especie>)
    requires recintos == RECINTOS && animais == ANIMAIS
    ensures Analise(recintos, animais, "MACACO", 0.0) == Erro(QUANTIDADE_INVALIDA)
    ensures Analise(recintos, animais, "MACACO", -1.0) == Erro(QUANTIDADE_INVALIDA)
    ensures Analise(recintos, animais, "MACACO", 1.5) == Erro(QUANTIDADE_INVALIDA)
  {
    assert (1.5).Floor == 1;
    EspeciesDaTabela();
  }

  /** Ten monkeys fit in no enclosure of the default zoo. */
  lemma ErroSemRecinto(recintos: seq<Recinto>, animais: map<string, Especie>)
    requires recintos == RECINTOS && animais == ANIMAIS
    ensures CatalogoValido(animais)
    ensures Analise(recintos, animais, "MACACO", 10.0) == Erro(SEM_RECINTO_VIAVEL)
  {
    CatalogoPadraoValido();
    EspeciesDaTabela();
    AdmitidosDezMacacos();
    assert (10.0).Floor == 10;
  }

  /** A caller of the class: a fresh zoo answers the one-monkey request
      with enclosures 1 and 3. */
  method ConsultaUmMacaco() returns (r: Resultado)
    ensures r == RecintosViaveis([Descricao(1, 6, 10), Descricao(3, 3, 7)])
  {
    var zoo := new RecintosZoo();
    r := zoo.AnalisaRecintos("MACACO", 1.0);
    UmMacaco(zoo.recintos, zoo.animais);
  }

  /** The analysis writes neither table, so the same request made twice to
      one zoo gets the same answer. */
  method ConsultaRepetida(zoo: RecintosZoo, animal: string, quantidade: real) returns (r1: Resultado, r2: Resultado)
    requires zoo.Valid()
    ensures r1 == r2
    ensures r1 == Analise(zoo.recintos, zoo.animais, animal, quantidade)
  {
    r1 := zoo.AnalisaRecintos(animal, quantidade);
    r2 := zoo.AnalisaRecintos(animal, quantidade);
  }
}
