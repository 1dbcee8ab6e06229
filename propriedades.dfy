/** Properties of the enclosure analysis: the comparator is a total order,
    the sort yields the unique ordered permutation of the admitted entries,
    every admitted entry comes from an enclosure that passes every rule, the
    descriptions determine their numbers, and the error cases. */
module ZooPropriedades {
  import Cadeia
  import opened Zoo

  // ---------------------------------------------------------------------
  // The comparator

  /** The comparator answers -1, 0 or 1, and an exact-biome entry comes
      before an entry that is not, whatever their descriptions. */
  lemma ComparaViaveisGrupos(a: Viavel, b: Viavel)
    ensures -1 <= ComparaViaveis(a, b) <= 1
    ensures a.biomaExato && !b.biomaExato ==> ComparaViaveis(a, b) < 0
    ensures !a.biomaExato && b.biomaExato ==> ComparaViaveis(a, b) > 0
    ensures a.biomaExato == b.biomaExato ==> ComparaViaveis(a, b) == Cadeia.Compara(a.texto, b.texto)
  {
  }

  /** Swapping the operands negates the comparator. */
  lemma ComparaViaveisAntissimetrica(a: Viavel, b: Viavel)
    ensures ComparaViaveis(b, a) == -ComparaViaveis(a, b)
  {
    Cadeia.ComparaAntissimetrica(a.texto, b.texto);
  }

  /** The comparator is zero exactly on equal entries. */
  lemma ComparaViaveisZero(a: Viavel, b: Viavel)
    ensures ComparaViaveis(a, b) == 0 <==> a == b
  {
    Cadeia.ComparaZero(a.texto, b.texto);
  }

  /** "Comes no later than" under the comparator is transitive. */
  lemma ComparaViaveisTransitiva(a: Viavel, b: Viavel, c: Viavel)
    requires ComparaViaveis(a, b) <= 0 && ComparaViaveis(b, c) <= 0
    ensures ComparaViaveis(a, c) <= 0
  {
    if a.biomaExato == b.biomaExato == c.biomaExato {
      Cadeia.ComparaTransitiva(a.texto, b.texto, c.texto);
    }
  }

  /** Ordenada says the comparator never puts a later entry before an earlier one. */
  lemma OrdenadaPeloComparador(s: seq<Viavel>)
    ensures Ordenada(s) <==> forall i, j :: 0 <= i < j < |s| ==> ComparaViaveis(s[i], s[j]) <= 0
  {
  }

  // ---------------------------------------------------------------------
  // The sort

  /** `x` comes before every entry after its insertion point, and not
      before the entry just ahead of it. */
  lemma {:induction false} PosicaoInsercaoCorreta(s: seq<Viavel>, x: Viavel)
    ensures forall k :: PosicaoInsercao(s, x) <= k < |s| ==> ComparaViaveis(x, s[k]) < 0
    ensures PosicaoInsercao(s, x) > 0 ==> ComparaViaveis(x, s[PosicaoInsercao(s, x) - 1]) >= 0
  {
    if s != [] && ComparaViaveis(x, s[|s| - 1]) < 0 {
      var n := |s| - 1;
      PosicaoInsercaoCorreta(s[..n], x);
      assert PosicaoInsercao(s, x) == PosicaoInsercao(s[..n], x);
    }
  }

  /** Two entries of an ordered sequence, taken in order, compare no later. */
  lemma OrdenadaPar(s: seq<Viavel>, i: nat, j: nat)
    requires Ordenada(s) && i <= j < |s|
    ensures ComparaViaveis(s[i], s[j]) <= 0
  {
    if i == j {
      ComparaViaveisZero(s[i], s[j]);
    } else {
      OrdenadaPeloComparador(s);
    }
  }

  /** Where each entry of the sequence after an insertion comes from. */
  lemma InsereOrdenadoIndice(s: seq<Viavel>, x: Viavel, k: nat)
    requires k <= |s|
    ensures var p := PosicaoInsercao(s, x);
      InsereOrdenado(s, x)[k] == if k < p then s[k] else if k == p then x else s[k - 1]
  {
  }

  /** Any two entries of the sequence after an insertion are in order. */
  lemma InsereOrdenadoPar(s: seq<Viavel>, x: Viavel, i: nat, j: nat)
    requires Ordenada(s) && i < j <= |s|
    ensures ComparaViaveis(InsereOrdenado(s, x)[i], InsereOrdenado(s, x)[j]) <= 0
  {
    var p := PosicaoInsercao(s, x);
    InsereOrdenadoIndice(s, x, i);
    InsereOrdenadoIndice(s, x, j);
    if j < p {
      OrdenadaPar(s, i, j);
    } else if j == p {
      PosicaoInsercaoCorreta(s, x);
      ComparaViaveisAntissimetrica(x, s[p - 1]);
      OrdenadaPar(s, i, p - 1);
      ComparaViaveisTransitiva(s[i], s[p - 1], x);
    } else if i < p {
      OrdenadaPar(s, i, j - 1);
    } else if i == p {
      PosicaoInsercaoCorreta(s, x);
    } else {
      OrdenadaPar(s, i - 1, j - 1);
    }
  }

  /** Inserting into an ordered sequence keeps it ordered and adds exactly `x`. */
  lemma InsereOrdenadoCorreto(s: seq<Viavel>, x: Viavel)
    requires Ordenada(s)
    ensures Ordenada(InsereOrdenado(s, x))
    ensures multiset(InsereOrdenado(s, x)) == multiset(s) + multiset{x}
  {
    var p := PosicaoInsercao(s, x);
    var r := InsereOrdenado(s, x);
    assert s == s[..p] + s[p..];
    forall i, j | 0 <= i < j < |r|
      ensures ComparaViaveis(r[i], r[j]) <= 0
    {
      InsereOrdenadoPar(s, x, i, j);
    }
    OrdenadaPeloComparador(r);
  }

  /** The sort returns an ordered permutation of its input. */
  lemma {:induction false} OrdenaCorreta(s: seq<Viavel>)
    ensures Ordenada(Ordena(s))
    ensures multiset(Ordena(s)) == multiset(s)
  {
    if s != [] {
      var n := |s| - 1;
      OrdenaCorreta(s[..n]);
      InsereOrdenadoCorreto(Ordena(s[..n]), s[n]);
      assert s == s[..n] + [s[n]];
    }
  }

  /** An ordered entry is no later than every entry after it. */
  lemma PrimeiroEhMinimo(s: seq<Viavel>, k: nat)
    requires Ordenada(s) && k < |s|
    ensures ComparaViaveis(s[0], s[k]) <= 0
  {
    OrdenadaPeloComparador(s);
    if k == 0 {
      ComparaViaveisZero(s[0], s[0]);
    }
  }

  /** Dropping the first entry keeps a sequence ordered. */
  lemma OrdenadaCauda(s: seq<Viavel>)
    requires Ordenada(s) && s != []
    ensures Ordenada(s[1..])
  {
    forall i, j | 0 <= i < j < |s| - 1
      ensures s[1..][j].biomaExato ==> s[1..][i].biomaExato
      ensures s[1..][i].biomaExato == s[1..][j].biomaExato ==> Cadeia.Compara(s[1..][i].texto, s[1..][j].texto) <= 0
    {
      assert s[1..][i] == s[i + 1] && s[1..][j] == s[j + 1];
    }
  }

  /** Two ordered permutations of the same entries start with the same entry. */
  lemma MesmoPrimeiro(s: seq<Viavel>, t: seq<Viavel>)
    requires Ordenada(s) && Ordenada(t) && s != [] && t != []
    requires multiset(s) == multiset(t)
    ensures s[0] == t[0]
  {
    assert s[0] in multiset(t) && t[0] in multiset(s);
    var k :| 0 <= k < |t| && t[k] == s[0];
    var l :| 0 <= l < |s| && s[l] == t[0];
    PrimeiroEhMinimo(t, k);
    PrimeiroEhMinimo(s, l);
    ComparaViaveisAntissimetrica(s[0], t[0]);
    ComparaViaveisZero(s[0], t[0]);
  }

  /** The entries after the first are all the entries but one copy of the first. */
  lemma RestoMultiset(s: seq<Viavel>)
    requires s != []
    ensures multiset(s[1..]) == multiset(s) - multiset{s[0]}
  {
    assert s == [s[0]] + s[1..];
  }

  /** Two ordered permutations of the same entries are equal: the result
      does not depend on how the sort is carried out. */
  lemma {:induction false} OrdenadaUnica(s: seq<Viavel>, t: seq<Viavel>)
    requires Ordenada(s) && Ordenada(t)
    requires multiset(s) == multiset(t)
    ensures s == t
  {
    if s == [] {
      assert |multiset(t)| == 0;
    } else {
      assert |t| == |multiset(t)| == |multiset(s)| > 0;
      MesmoPrimeiro(s, t);
      RestoMultiset(s);
      RestoMultiset(t);
      OrdenadaCauda(s);
      OrdenadaCauda(t);
      OrdenadaUnica(s[1..], t[1..]);
      assert s == [s[0]] + s[1..] && t == [t[0]] + t[1..];
    }
  }

  // ---------------------------------------------------------------------
  // The admitted enclosures

  /** Every admitted entry is the decision on some enclosure of the table. */
  lemma {:induction false} AdmitidoVemDeRecinto(recintos: seq<Recinto>, animal: string, esp: Especie, quantidade: int, i: nat)
    requires |esp.biomas| > 0
    requires i < |Admitidos(recintos, animal, esp, quantidade)|
    ensures exists k :: 0 <= k < |recintos|
                        && AvaliaRecinto(recintos[k], animal, esp, quantidade) == Some(Admitidos(recintos, animal, esp, quantidade)[i])
  {
    var n := |recintos| - 1;
    var anteriores := Admitidos(recintos[..n], animal, esp, quantidade);
    if i < |anteriores| {
      AdmitidoVemDeRecinto(recintos[..n], animal, esp, quantidade, i);
      var k :| 0 <= k < n && AvaliaRecinto(recintos[..n][k], animal, esp, quantidade) == Some(anteriores[i]);
      assert recintos[..n][k] == recintos[k];
    } else {
      assert AvaliaRecinto(recintos[n], animal, esp, quantidade) == Some(Admitidos(recintos, animal, esp, quantidade)[i]);
    }
  }

  /** Every enclosure the rules admit shows up among the admitted entries. */
  lemma {:induction false} RecintoAdmitidoAparece(recintos: seq<Recinto>, animal: string, esp: Especie, quantidade: int, k: nat)
    requires |esp.biomas| > 0
    requires k < |recintos| && Admissivel(recintos[k], animal, esp, quantidade)
    ensures AvaliaRecinto(recintos[k], animal, esp, quantidade).value in Admitidos(recintos, animal, esp, quantidade)
  {
    var n := |recintos| - 1;
    if k < n {
      assert recintos[..n][k] == recintos[k];
      RecintoAdmitidoAparece(recintos[..n], animal, esp, quantidade, k);
    }
  }

  /** No entry is admitted when no enclosure passes the rules, and some
      entry is when one does. */
  lemma {:induction false} AdmitidosVazio(recintos: seq<Recinto>, animal: string, esp: Especie, quantidade: int)
    requires |esp.biomas| > 0
    ensures Admitidos(recintos, animal, esp, quantidade) == [] <==>
              forall k :: 0 <= k < |recintos| ==> !Admissivel(recintos[k], animal, esp, quantidade)
  {
    if Admitidos(recintos, animal, esp, quantidade) != [] {
      AdmitidoVemDeRecinto(recintos, animal, esp, quantidade, 0);
    }
    if exists k :: 0 <= k < |recintos| && Admissivel(recintos[k], animal, esp, quantidade) {
      var k :| 0 <= k < |recintos| && Admissivel(recintos[k], animal, esp, quantidade);
      RecintoAdmitidoAparece(recintos, animal, esp, quantidade, k);
    }
  }

  /** Enclosure numbers are distinct. */
  predicate NumerosDistintos(recintos: seq<Recinto>)
  {
    forall k, l :: 0 <= k < l < |recintos| ==> recintos[k].numero != recintos[l].numero
  }

  /** Two admitted enclosures with different numbers get different descriptions. */
  lemma NumerosDiferentesTextosDiferentes(r1: Recinto, r2: Recinto, animal: string, esp: Especie, quantidade: int)
    requires |esp.biomas| > 0 && r1.numero != r2.numero
    requires AvaliaRecinto(r1, animal, esp, quantidade).Some? && AvaliaRecinto(r2, animal, esp, quantidade).Some?
    ensures AvaliaRecinto(r1, animal, esp, quantidade).value.texto != AvaliaRecinto(r2, animal, esp, quantidade).value.texto
  {
    var livre1 := r1.total - (r1.ocupados + EspacoRequerido(r1, animal, esp, quantidade));
    var livre2 := r2.total - (r2.ocupados + EspacoRequerido(r2, animal, esp, quantidade));
    if AvaliaRecinto(r1, animal, esp, quantidade).value.texto == AvaliaRecinto(r2, animal, esp, quantidade).value.texto {
      DescricaoInjetiva(r1.numero, livre1, r1.total, r2.numero, livre2, r2.total);
    }
  }

  /** An entry admitted from the earlier enclosures has a description
      different from that of a later enclosure with another number. */
  lemma AdmitidoAnteriorDifere(recintos: seq<Recinto>, animal: string, esp: Especie, quantidade: int, i: nat)
    requires |esp.biomas| > 0 && recintos != []
    requires NumerosDistintos(recintos)
    requires i < |Admitidos(recintos[..|recintos| - 1], animal, esp, quantidade)|
    requires AvaliaRecinto(recintos[|recintos| - 1], animal, esp, quantidade).Some?
    ensures Admitidos(recintos[..|recintos| - 1], animal, esp, quantidade)[i].texto
            != AvaliaRecinto(recintos[|recintos| - 1], animal, esp, quantidade).value.texto
  {
    var n := |recintos| - 1;
    var anteriores := Admitidos(recintos[..n], animal, esp, quantidade);
    AdmitidoVemDeRecinto(recintos[..n], animal, esp, quantidade, i);
    var k :| 0 <= k < n && AvaliaRecinto(recintos[..n][k], animal, esp, quantidade) == Some(anteriores[i]);
    assert recintos[..n][k] == recintos[k];
    NumerosDiferentesTextosDiferentes(recintos[k], recintos[n], animal, esp, quantidade);
  }

  /** Descriptions of a sequence of entries are pairwise different. */
  predicate TextosDistintos(vs: seq<Viavel>)
  {
    forall i, j :: 0 <= i < j < |vs| ==> vs[i].texto != vs[j].texto
  }

  /** With distinct enclosure numbers, no description is admitted twice. */
  lemma {:induction false} AdmitidosDistintos(recintos: seq<Recinto>, animal: string, esp: Especie, quantidade: int)
    requires |esp.biomas| > 0
    requires NumerosDistintos(recintos)
    ensures TextosDistintos(Admitidos(recintos, animal, esp, quantidade))
  {
    if recintos != [] {
      var n := |recintos| - 1;
      var anteriores := Admitidos(recintos[..n], animal, esp, quantidade);
      var vs := Admitidos(recintos, animal, esp, quantidade);
      assert NumerosDistintos(recintos[..n]);
      AdmitidosDistintos(recintos[..n], animal, esp, quantidade);
      if |vs| > |anteriores| {
        assert vs == anteriores + [AvaliaRecinto(recintos[n], animal, esp, quantidade).value];
        forall i | 0 <= i < |anteriores|
          ensures anteriores[i].texto != vs[|anteriores|].texto
        {
          AdmitidoAnteriorDifere(recintos, animal, esp, quantidade, i);
        }
      }
    }
  }

  // ---------------------------------------------------------------------
  // The description strings

  /** Every character of a decimal rendering is a digit. */
  lemma {:induction false} DecimalSoDigitos(n: nat)
    ensures forall i :: 0 <= i < |Cadeia.Decimal(n)| ==> '0' <= Cadeia.Decimal(n)[i] <= '9'
  {
    if n >= 10 {
      DecimalSoDigitos(n / 10);
    }
  }

  /** A digit string followed by a text starting with a non-digit splits in
      only one way. */
  lemma SeparaDigitos(d1: string, r1: string, d2: string, r2: string)
    requires forall i :: 0 <= i < |d1| ==> '0' <= d1[i] <= '9'
    requires forall i :: 0 <= i < |d2| ==> '0' <= d2[i] <= '9'
    requires r1 != [] && !('0' <= r1[0] <= '9')
    requires r2 != [] && !('0' <= r2[0] <= '9')
    requires d1 + r1 == d2 + r2
    ensures d1 == d2 && r1 == r2
  {
    var w := d1 + r1;
    assert forall i :: 0 <= i < |d1| ==> w[i] == d1[i];
    assert forall i :: 0 <= i < |d2| ==> w[i] == d2[i];
    assert w[|d1|] == r1[0] && w[|d2|] == r2[0];
    assert |d1| == |d2|;
    assert d1 == w[..|d1|] && r1 == w[|d1|..];
    assert d2 == w[..|d2|] && r2 == w[|d2|..];
  }

  /** Equal texts after a common prefix are equal. */
  lemma TiraPrefixo(p: string, x: string, y: string)
    requires p + x == p + y
    ensures x == y
  {
    assert x == (p + x)[|p|..];
    assert y == (p + y)[|p|..];
  }

  /** A description determines the number, free space and total it was
      written from. */
  lemma DescricaoInjetiva(n1: nat, l1: nat, t1: nat, n2: nat, l2: nat, t2: nat)
    requires Descricao(n1, l1, t1) == Descricao(n2, l2, t2)
    ensures n1 == n2 && l1 == l2 && t1 == t2
  {
    var a1, a2 := Cadeia.Decimal(n1), Cadeia.Decimal(n2);
    var b1, b2 := Cadeia.Decimal(l1), Cadeia.Decimal(l2);
    var c1, c2 := Cadeia.Decimal(t1), Cadeia.Decimal(t2);
    DecimalSoDigitos(n1); DecimalSoDigitos(n2);
    DecimalSoDigitos(l1); DecimalSoDigitos(l2);
    DecimalSoDigitos(t1); DecimalSoDigitos(t2);
    var resto1 := " (espaço livre: " + (b1 + (" total: " + (c1 + ")")));
    var resto2 := " (espaço livre: " + (b2 + (" total: " + (c2 + ")")));
    TiraPrefixo("Recinto ", a1 + resto1, a2 + resto2);
    SeparaDigitos(a1, resto1, a2, resto2);
    TiraPrefixo(" (espaço livre: ", b1 + (" total: " + (c1 + ")")), b2 + (" total: " + (c2 + ")")));
    SeparaDigitos(b1, " total: " + (c1 + ")"), b2, " total: " + (c2 + ")"));
    TiraPrefixo(" total: ", c1 + ")", c2 + ")");
    SeparaDigitos(c1, ")", c2, ")");
    Cadeia.DecimalIdaEVolta(n1); Cadeia.DecimalIdaEVolta(n2);
    Cadeia.DecimalIdaEVolta(l1); Cadeia.DecimalIdaEVolta(l2);
    Cadeia.DecimalIdaEVolta(t1); Cadeia.DecimalIdaEVolta(t2);
  }

  // ---------------------------------------------------------------------
  // The admissibility rules, one by one

  /** An admitted enclosure passes the biome gate; for the crocodile its
      biome is exactly the primary one. */
  lemma RegraBioma(rec: Recinto, animal: string, esp: Especie, quantidade: int)
    requires |esp.biomas| > 0 && AvaliaRecinto(rec, animal, esp, quantidade).Some?
    ensures rec.bioma in esp.biomas || Cadeia.Contem(rec.bioma, esp.biomas[0])
    ensures animal == "CROCODILO" ==> rec.bioma == esp.biomas[0]
  {
  }

  /** The space left in an admitted enclosure is what the newcomers leave
      free, one unit less when they join another species, and never negative. */
  lemma RegraEspaco(rec: Recinto, animal: string, esp: Especie, quantidade: int)
    requires |esp.biomas| > 0 && AvaliaRecinto(rec, animal, esp, quantidade).Some?
    ensures var extra := if |rec.animais| > 0 && animal !in rec.animais then 1 else 0;
            && rec.total - (rec.ocupados + quantidade * esp.tamanho + extra) >= 0
            && AvaliaRecinto(rec, animal, esp, quantidade).value.texto
               == Descricao(rec.numero, rec.total - (rec.ocupados + quantidade * esp.tamanho + extra), rec.total)
  {
  }

  /** The `some` over the residents finds a carnivore exactly when one lives there. */
  lemma {:induction false} AlgumCarnivoroSse(animais: seq<string>)
    ensures AlgumCarnivoro(animais) <==> exists a :: a in animais && a in CARNIVOROS
  {
    if animais != [] {
      AlgumCarnivoroSse(animais[1..]);
      assert animais == [animais[0]] + animais[1..];
    }
  }

  /** The mixing test holds exactly when some resident lives there and no
      resident is of the requested species. */
  lemma MaisDeUmaEspecieSse(rec: Recinto, animal: string)
    ensures MaisDeUmaEspecie(rec, animal) <==> (exists a :: a in rec.animais) && forall a :: a in rec.animais ==> a != animal
  {
    if |rec.animais| > 0 {
      assert rec.animais[0] in rec.animais;
    }
  }

  /** An enclosure holding a carnivore admits only more of a resident species. */
  lemma RegraCarnivoros(rec: Recinto, animal: string, esp: Especie, quantidade: int)
    requires |esp.biomas| > 0
    requires exists a :: a in rec.animais && a in CARNIVOROS
    requires animal !in rec.animais
    ensures AvaliaRecinto(rec, animal, esp, quantidade) == None
  {
    AlgumCarnivoroSse(rec.animais);
  }

  /** A single monkey is never put in an empty enclosure. */
  lemma RegraMacacoSozinho(rec: Recinto, esp: Especie)
    requires |esp.biomas| > 0 && rec.ocupados == 0
    ensures AvaliaRecinto(rec, "MACACO", esp, 1) == None
  {
  }

  /** Hippos share an enclosure with another species only in "savana e rio". */
  lemma RegraHipopotamo(rec: Recinto, esp: Especie, quantidade: int)
    requires |esp.biomas| > 0
    requires |rec.animais| > 0 && "HIPOPOTAMO" !in rec.animais
    requires AvaliaRecinto(rec, "HIPOPOTAMO", esp, quantidade).Some?
    ensures rec.bioma == "savana e rio"
  {
  }

  // ---------------------------------------------------------------------
  // The whole analysis

  /** Each of the three errors, exactly when it is reported. */
  lemma AnaliseErros(recintos: seq<Recinto>, animais: map<string, Especie>, animal: string, quantidade: real)
    requires CatalogoValido(animais)
    ensures Analise(recintos, animais, animal, quantidade) == Erro(ANIMAL_INVALIDO)
            <==> animal !in animais
    ensures Analise(recintos, animais, animal, quantidade) == Erro(QUANTIDADE_INVALIDA)
            <==> animal in animais && (quantidade <= 0.0 || quantidade.Floor as real != quantidade)
    ensures Analise(recintos, animais, animal, quantidade) == Erro(SEM_RECINTO_VIAVEL)
            <==> animal in animais && QuantidadeValida(quantidade)
                 && forall k :: 0 <= k < |recintos| ==> !Admissivel(recintos[k], animal, animais[animal], quantidade.Floor)
  {
    assert ANIMAL_INVALIDO != QUANTIDADE_INVALIDA && ANIMAL_INVALIDO != SEM_RECINTO_VIAVEL
        && QUANTIDADE_INVALIDA != SEM_RECINTO_VIAVEL by {
      assert |ANIMAL_INVALIDO| == 15 && |QUANTIDADE_INVALIDA| == 19 && |SEM_RECINTO_VIAVEL| == 21;
    }
    if animal in animais {
      AdmitidosVazio(recintos, animal, animais[animal], quantidade.Floor);
    }
  }

  /** On valid input with some enclosure admitted, the result is the list of
      descriptions of ANY ordered permutation of the admitted entries. */
  lemma AnaliseOrdenada(recintos: seq<Recinto>, animais: map<string, Especie>, animal: string, quantidade: real,
                        vs: seq<Viavel>)
    requires CatalogoValido(animais) && animal in animais && QuantidadeValida(quantidade)
    requires vs != [] && Ordenada(vs)
    requires multiset(vs) == multiset(Admitidos(recintos, animal, animais[animal], quantidade.Floor))
    ensures Analise(recintos, animais, animal, quantidade) == RecintosViaveis(Textos(vs))
  {
    var admitidos := Admitidos(recintos, animal, animais[animal], quantidade.Floor);
    OrdenaCorreta(admitidos);
    OrdenadaUnica(Ordena(admitidos), vs);
  }

  /** Every description in a successful result is that of an enclosure of
      the table that passes all the rules, with its space left after placement. */
  lemma AnaliseSoAdmissiveis(recintos: seq<Recinto>, animais: map<string, Especie>, animal: string, quantidade: real,
                             i: nat)
    requires CatalogoValido(animais)
    requires Analise(recintos, animais, animal, quantidade).RecintosViaveis?
    requires i < |Analise(recintos, animais, animal, quantidade).recintosViaveis|
    ensures animal in animais && QuantidadeValida(quantidade)
    ensures exists k :: 0 <= k < |recintos|
                        && Admissivel(recintos[k], animal, animais[animal], quantidade.Floor)
                        && Analise(recintos, animais, animal, quantidade).recintosViaveis[i]
                           == AvaliaRecinto(recintos[k], animal, animais[animal], quantidade.Floor).value.texto
  {
    var esp := animais[animal];
    var admitidos := Admitidos(recintos, animal, esp, quantidade.Floor);
    var ordenados := Ordena(admitidos);
    OrdenaCorreta(admitidos);
    assert ordenados[i] in multiset(admitidos);
    var j :| 0 <= j < |admitidos| && admitidos[j] == ordenados[i];
    AdmitidoVemDeRecinto(recintos, animal, esp, quantidade.Floor, j);
  }

  /** Reordering entries whose descriptions differ keeps them different. */
  lemma PermutacaoTextosDistintos(s: seq<Viavel>, t: seq<Viavel>)
    requires TextosDistintos(s) && multiset(s) == multiset(t)
    ensures TextosDistintos(t)
  {
    forall i, j | 0 <= i < j < |t|
      ensures t[i].texto != t[j].texto
    {
      PermutacaoPar(s, t, i, j);
    }
  }

  /** One pair of PermutacaoTextosDistintos. */
  lemma PermutacaoPar(s: seq<Viavel>, t: seq<Viavel>, i: nat, j: nat)
    requires TextosDistintos(s) && multiset(s) == multiset(t)
    requires i < j < |t|
    ensures t[i].texto != t[j].texto
  {
    assert t[i] in multiset(s) && t[j] in multiset(s);
    var a :| 0 <= a < |s| && s[a] == t[i];
    var b :| 0 <= b < |s| && s[b] == t[j];
    if t[i].texto == t[j].texto {
      assert a == b;
      ContaUma(s, a);
      ContaDuas(t, i, j);
      assert false;
    }
  }

  /** With distinct enclosure numbers, a successful result lists each
      admitted enclosure once. */
  lemma AnaliseSemRepeticao(recintos: seq<Recinto>, animais: map<string, Especie>, animal: string, quantidade: real)
    requires CatalogoValido(animais) && NumerosDistintos(recintos)
    requires Analise(recintos, animais, animal, quantidade).RecintosViaveis?
    ensures var ts := Analise(recintos, animais, animal, quantidade).recintosViaveis;
            forall i, j :: 0 <= i < j < |ts| ==> ts[i] != ts[j]
  {
    var esp := animais[animal];
    var admitidos := Admitidos(recintos, animal, esp, quantidade.Floor);
    OrdenaCorreta(admitidos);
    AdmitidosDistintos(recintos, animal, esp, quantidade.Floor);
    PermutacaoTextosDistintos(admitidos, Ordena(admitidos));
  }

  /** An entry found at two places of a sequence occurs at least twice. */
  lemma ContaDuas(t: seq<Viavel>, i: nat, j: nat)
    requires i < j < |t| && t[i] == t[j]
    ensures multiset(t)[t[i]] >= 2
  {
    assert t == t[..j] + [t[j]] + t[j + 1..];
    assert t[..j][i] == t[i];
    assert t[i] in multiset(t[..j]);
  }

  /** The multiplicity of an entry that occurs exactly once. */
  lemma ContaUma(s: seq<Viavel>, a: nat)
    requires a < |s|
    requires forall b :: 0 <= b < |s| && b != a ==> s[b] != s[a]
    ensures multiset(s)[s[a]] == 1
  {
    var antes, depois := s[..a], s[a + 1..];
    assert s == antes + [s[a]] + depois;
    assert forall b :: 0 <= b < |antes| ==> antes[b] == s[b];
    assert forall b :: 0 <= b < |depois| ==> depois[b] == s[a + 1 + b];
    assert s[a] !in antes && s[a] !in depois;
    assert multiset(antes)[s[a]] == 0 && multiset(depois)[s[a]] == 0;
  }
}
