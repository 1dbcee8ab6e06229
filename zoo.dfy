/** The enclosure analysis of the zoo (src/recintos-zoo.js): the fixed tables
    of enclosures and species, the admissibility decision for one enclosure,
    the comparator that orders the admitted enclosures, and the class
    `RecintosZoo` whose method `AnalisaRecintos` runs the whole analysis. */
module Zoo {
  import Cadeia

  /** An enclosure: its number, biome label, total size, occupied size and
      the species already living in it. */
  datatype Recinto = Recinto(numero: nat, bioma: string, total: nat, ocupados: nat, animais: seq<string>)

  /** A species: the size of one individual and the biomes it adapts to;
      the first biome of the list is the primary one. */
  datatype Especie = Especie(tamanho: nat, biomas: seq<string>)

  /** An admitted enclosure as the loop records it: its description and
      whether its biome is exactly the species' primary biome. */
  datatype Viavel = Viavel(texto: string, biomaExato: bool)

  /** What the analysis returns: `{recintosViaveis: [...]}` or `{erro: ...}`. */
  datatype Resultado = RecintosViaveis(recintosViaveis: seq<string>) | Erro(erro: string)

  datatype Option<T> = None | Some(value: T)

  const ANIMAL_INVALIDO: string := "Animal inválido"
  const QUANTIDADE_INVALIDA: string := "Quantidade inválida"
  const SEM_RECINTO_VIAVEL: string := "Não há recinto viável"

  /** The species that the carnivore rule looks for among the residents. */
  const CARNIVOROS: seq<string> := ["LEAO", "LEOPARDO", "CROCODILO"]

  /** The enclosure table the constructor builds. */
  const RECINTOS: seq<Recinto> := [
    Recinto(1, "savana", 10, 3, ["MACACO"]),
    Recinto(2, "floresta", 5, 0, []),
    Recinto(3, "savana e rio", 7, 2, ["GAZELA"]),
    Recinto(4, "rio", 8, 0, []),
    Recinto(5, "savana", 9, 3, ["LEAO"])
  ]

  // The rows of the species table.
  const ESPECIE_LEAO: Especie := Especie(3, ["savana"])
  const ESPECIE_LEOPARDO: Especie := Especie(2, ["savana"])
  const ESPECIE_CROCODILO: Especie := Especie(3, ["rio"])
  const ESPECIE_MACACO: Especie := Especie(1, ["savana", "floresta"])
  const ESPECIE_GAZELA: Especie := Especie(2, ["savana"])
  const ESPECIE_HIPOPOTAMO: Especie := Especie(4, ["savana", "rio"])

  /** The species table the constructor builds. */
  const ANIMAIS: map<string, Especie> := map[
    "LEAO" := ESPECIE_LEAO,
    "LEOPARDO" := ESPECIE_LEOPARDO,
    "CROCODILO" := ESPECIE_CROCODILO,
    "MACACO" := ESPECIE_MACACO,
    "GAZELA" := ESPECIE_GAZELA,
    "HIPOPOTAMO" := ESPECIE_HIPOPOTAMO
  ]

  /** Every species has a primary biome (the code reads `biomas[0]`). */
  predicate CatalogoValido(animais: map<string, Especie>)
  {
    forall a :: a in animais ==> |animais[a].biomas| > 0
  }

  /** The quantity check: positive and an integer, hence at least one. */
  predicate QuantidadeValida(quantidade: real): (b: bool)
    ensures b ==> quantidade.Floor >= 1 && quantidade == quantidade.Floor as real
  {
    !(quantidade <= 0.0 || quantidade.Floor as real != quantidade)
  }

  // The admissibility rules, each stated on its own.

  /** Biome gate: the species' list names the enclosure's biome, or the
      enclosure's label contains the primary biome as a substring. */
  predicate PassaBioma(rec: Recinto, esp: Especie): (b: bool)
    requires |esp.biomas| > 0
    ensures rec.bioma == esp.biomas[0] ==> b
  {
    rec.bioma in esp.biomas || Cadeia.Contem(rec.bioma, esp.biomas[0])
  }

  /** Some of the given species is a carnivore: the `some` over the residents.
      It finds none among no residents, and one wherever a resident is a
      carnivore (AlgumCarnivoroSse gives the exact condition). */
  function AlgumCarnivoro(animais: seq<string>): (b: bool)
    ensures b ==> |animais| > 0
  {
    animais != [] && (animais[0] in CARNIVOROS || AlgumCarnivoro(animais[1..]))
  }

  /** Some resident of the enclosure is a carnivore. */
  predicate TemCarnivoro(rec: Recinto)
  {
    AlgumCarnivoro(rec.animais)
  }

  /** The enclosure has residents and none of them is of the requested
      species: placing the newcomers would mix species. */
  predicate MaisDeUmaEspecie(rec: Recinto, animal: string): (b: bool)
  {
    |rec.animais| > 0 && animal !in rec.animais
  }

  /** Space the newcomers take: their total size, plus one unit when they
      would share the enclosure with another species. */
  function EspacoRequerido(rec: Recinto, animal: string, esp: Especie, quantidade: int): (r: int)
    ensures quantidade * esp.tamanho <= r <= quantidade * esp.tamanho + 1
    ensures rec.animais == [] ==> r == quantidade * esp.tamanho
  {
    quantidade * esp.tamanho + (if MaisDeUmaEspecie(rec, animal) then 1 else 0)
  }

  /** All the rules an admitted enclosure satisfies, as one conjunction. */
  predicate Admissivel(rec: Recinto, animal: string, esp: Especie, quantidade: int)
    requires |esp.biomas| > 0
  {
    && PassaBioma(rec, esp)
    && (animal == "CROCODILO" ==> rec.bioma == esp.biomas[0])
    && (TemCarnivoro(rec) ==> animal in rec.animais)
    && !(animal == "MACACO" && quantidade == 1 && rec.ocupados == 0)
    && (animal == "HIPOPOTAMO" && MaisDeUmaEspecie(rec, animal) ==> rec.bioma == "savana e rio")
    && EspacoRequerido(rec, animal, esp, quantidade) <= rec.total - rec.ocupados
  }

  /** The body of the `forEach` callback: decides one enclosure, in the
      order the code tests its conditions, and describes it when admitted. */
  function AvaliaRecinto(rec: Recinto, animal: string, esp: Especie, quantidade: int): (r: Option<Viavel>)
    requires |esp.biomas| > 0
    ensures r.Some? <==> Admissivel(rec, animal, esp, quantidade)
    ensures r.Some? ==>
              var livre := rec.total - (rec.ocupados + EspacoRequerido(rec, animal, esp, quantidade));
              && livre >= 0
              && r.value == Viavel(Descricao(rec.numero, livre, rec.total), rec.bioma == esp.biomas[0])
  {
    var espacoRestante := rec.total - rec.ocupados;
    var podeAcomodar := espacoRestante >= quantidade * esp.tamanho;
    var biomaExato := rec.bioma == esp.biomas[0];
    if animal == "CROCODILO" && !biomaExato then None
    else
      var carnivorosNoRecinto := AlgumCarnivoro(rec.animais);
      var macacoSozinho := animal == "MACACO" && quantidade == 1 && rec.ocupados == 0;
      var maisDeUmaEspecie := |rec.animais| > 0 && animal !in rec.animais;
      if !(rec.bioma in esp.biomas || Cadeia.Contem(rec.bioma, esp.biomas[0])) then None
      else if !podeAcomodar then None
      else if carnivorosNoRecinto && animal !in rec.animais then None
      else if macacoSozinho then None
      else if animal == "HIPOPOTAMO" && maisDeUmaEspecie && rec.bioma != "savana e rio" then None
      else
        var espacoOcupadoExtra := if maisDeUmaEspecie then quantidade * esp.tamanho + 1 else quantidade * esp.tamanho;
        if espacoRestante >= espacoOcupadoExtra then
          Some(Viavel(Descricao(rec.numero, rec.total - (rec.ocupados + espacoOcupadoExtra), rec.total), biomaExato))
        else None
  }

  /** The admitted enclosures of a table, in table order: what the loop over
      the table pushes into `recintosViaveis`. */
  function Admitidos(recintos: seq<Recinto>, animal: string, esp: Especie, quantidade: int): (vs: seq<Viavel>)
    requires |esp.biomas| > 0
    ensures |vs| <= |recintos|
  {
    if recintos == [] then []
    else
      var anteriores := Admitidos(recintos[..|recintos| - 1], animal, esp, quantidade);
      match AvaliaRecinto(recintos[|recintos| - 1], animal, esp, quantidade)
      case Some(v) => anteriores + [v]
      case None => anteriores
  }

  /** The description of an admitted enclosure: its number, the space left
      once the animals are placed, and its total size. */
  function Descricao(numero: nat, livre: nat, total: nat): (s: string)
  {
    "Recinto " + (Cadeia.Decimal(numero) + (" (espaço livre: " + (Cadeia.Decimal(livre)
    + (" total: " + (Cadeia.Decimal(total) + ")")))))
  }

  /** The `.map(r => r.texto)` at the end of the analysis. */
  function Textos(vs: seq<Viavel>): (ts: seq<string>)
    ensures |ts| == |vs|
    ensures forall i :: 0 <= i < |vs| ==> ts[i] == vs[i].texto
  {
    seq(|vs|, i requires 0 <= i < |vs| => vs[i].texto)
  }

  /** The comparator given to `sort`: exact-biome entries first, then by
      comparing the description strings. */
  function ComparaViaveis(a: Viavel, b: Viavel): int
  {
    if a.biomaExato && !b.biomaExato then -1
    else if !a.biomaExato && b.biomaExato then 1
    else Cadeia.Compara(a.texto, b.texto)
  }

  /** The order the result must have: every exact-biome entry before every
      other one, and within each group the descriptions in ascending order. */
  predicate Ordenada(s: seq<Viavel>)
  {
    forall i, j :: 0 <= i < j < |s| ==>
      && (s[j].biomaExato ==> s[i].biomaExato)
      && (s[i].biomaExato == s[j].biomaExato ==> Cadeia.Compara(s[i].texto, s[j].texto) <= 0)
  }

  /** Where `x` goes in `s`: right after the last entry that `x` does not
      come before. */
  function PosicaoInsercao(s: seq<Viavel>, x: Viavel): (p: nat)
    ensures p <= |s|
  {
    if s == [] || ComparaViaveis(x, s[|s| - 1]) >= 0 then |s|
    else PosicaoInsercao(s[..|s| - 1], x)
  }

  /** Inserts `x` into `s` at PosicaoInsercao: one step of a stable
      insertion sort. */
  function InsereOrdenado(s: seq<Viavel>, x: Viavel): seq<Viavel>
  {
    var p := PosicaoInsercao(s, x);
    s[..p] + [x] + s[p..]
  }

  /** The stable sort of the admitted enclosures by ComparaViaveis. */
  function Ordena(s: seq<Viavel>): (r: seq<Viavel>)
    ensures |r| == |s|
  {
    if s == [] then []
    else InsereOrdenado(Ordena(s[..|s| - 1]), s[|s| - 1])
  }

  /** What `analisaRecintos(animal, quantidade)` returns on the given tables. */
  function Analise(recintos: seq<Recinto>, animais: map<string, Especie>, animal: string, quantidade: real): (r: Resultado)
    requires CatalogoValido(animais)
    ensures r.Erro? ==> r.erro == ANIMAL_INVALIDO || r.erro == QUANTIDADE_INVALIDA || r.erro == SEM_RECINTO_VIAVEL
    ensures r.RecintosViaveis? ==> animal in animais && 0 < |r.recintosViaveis| <= |recintos|
  {
    if animal !in animais then Erro(ANIMAL_INVALIDO)
    else if !QuantidadeValida(quantidade) then Erro(QUANTIDADE_INVALIDA)
    else
      var viaveis := Ordena(Admitidos(recintos, animal, animais[animal], quantidade.Floor));
      if |viaveis| > 0 then RecintosViaveis(Textos(viaveis)) else Erro(SEM_RECINTO_VIAVEL)
  }

  /** The insertion point is the place after the last entry `x` does not
      come before, when every entry from there on comes after `x`. */
  lemma {:induction false} PosicaoInsercaoEm(s: seq<Viavel>, x: Viavel, j: nat)
    requires j <= |s|
    requires j > 0 ==> ComparaViaveis(x, s[j - 1]) >= 0
    requires forall k :: j <= k < |s| ==> ComparaViaveis(x, s[k]) < 0
    ensures PosicaoInsercao(s, x) == j
  {
    if j < |s| {
      var n := |s| - 1;
      assert forall k :: j <= k < n ==> s[..n][k] == s[k];
      PosicaoInsercaoEm(s[..n], x, j);
    }
  }

  /** The inner loop of the insertion: shifts one place to the right every
      entry of the sorted prefix `a[..i]` that `x` comes before, and returns
      the hole left for `x`. */
  method AbreEspaco(a: array<Viavel>, i: nat, x: Viavel) returns (j: nat)
    requires i < a.Length
    modifies a
    ensures j == PosicaoInsercao(old(a[..i]), x)
    ensures forall k :: 0 <= k < j ==> a[k] == old(a[k])
    ensures forall k :: j <= k < i ==> a[k + 1] == old(a[k])
    ensures forall k :: i < k < a.Length ==> a[k] == old(a[k])
  {
    ghost var prefixo := a[..i];
    j := i;
    while j > 0 && ComparaViaveis(x, a[j - 1]) < 0
      invariant 0 <= j <= i
      invariant forall k :: 0 <= k < j ==> a[k] == old(a[k])
      invariant forall k :: j <= k < i ==> a[k + 1] == old(a[k])
      invariant forall k :: i < k < a.Length ==> a[k] == old(a[k])
      invariant forall k :: j <= k < i ==> ComparaViaveis(x, prefixo[k]) < 0
    {
      a[j] := a[j - 1];
      j := j - 1;
    }
    PosicaoInsercaoEm(prefixo, x, j);
  }

  /** Inserts `a[i]` into the sorted prefix `a[..i]`. */
  method InsereNoLugar(a: array<Viavel>, i: nat)
    requires i < a.Length
    modifies a
    ensures a[..i + 1] == InsereOrdenado(old(a[..i]), old(a[i]))
    ensures forall k :: i < k < a.Length ==> a[k] == old(a[k])
  {
    var x := a[i];
    ghost var prefixo := a[..i];
    var j := AbreEspaco(a, i, x);
    a[j] := x;
    ghost var inserido := prefixo[..j] + [x] + prefixo[j..];
    forall k | 0 <= k <= i
      ensures a[k] == inserido[k]
    {
      if k < j {
        assert inserido[k] == prefixo[k];
      } else if j < k {
        assert inserido[k] == prefixo[k - 1];
      }
    }
    assert a[..i + 1] == inserido;
  }

  /** Sorting a one-longer prefix inserts its last entry. */
  lemma OrdenaPasso(s: seq<Viavel>, i: nat)
    requires i < |s|
    ensures Ordena(s[..i + 1]) == InsereOrdenado(Ordena(s[..i]), s[i])
  {
    assert s[..i + 1][..i] == s[..i];
  }

  /** The in-place `sort` of `recintosViaveis`: a stable insertion sort by
      ComparaViaveis. */
  method OrdenaNoLugar(a: array<Viavel>)
    modifies a
    ensures a[..] == Ordena(old(a[..]))
  {
    ghost var inicial := a[..];
    for i := 0 to a.Length
      invariant a[..i] == Ordena(inicial[..i])
      invariant forall k :: i <= k < a.Length ==> a[k] == inicial[k]
    {
      OrdenaPasso(inicial, i);
      InsereNoLugar(a, i);
    }
    assert inicial[..a.Length] == inicial;
    assert a[..a.Length] == a[..];
  }

  /** The zoo: the two tables, set up by the constructor and only read afterwards. */
  class RecintosZoo {
    var recintos: seq<Recinto>
    var animais: map<string, Especie>

    ghost predicate Valid()
      reads this
    {
      CatalogoValido(animais)
    }

    constructor ()
      ensures Valid()
      ensures recintos == RECINTOS && animais == ANIMAIS
    {
      recintos := RECINTOS;
      animais := ANIMAIS;
    }

    /** Validates the inputs, runs every enclosure through the rules, sorts
        the admitted ones and renders them, or reports the error. */
    method AnalisaRecintos(animal: string, quantidade: real) returns (r: Resultado)
      requires Valid()
      ensures r == Analise(recintos, animais, animal, quantidade)
    {
      if animal !in animais {
        return Erro(ANIMAL_INVALIDO);
      }
      if quantidade <= 0.0 || quantidade.Floor as real != quantidade {
        return Erro(QUANTIDADE_INVALIDA);
      }
      var esp := animais[animal];
      var n := quantidade.Floor;
      var viaveis: seq<Viavel> := [];
      for i := 0 to |recintos|
        invariant viaveis == Admitidos(recintos[..i], animal, esp, n)
      {
        assert recintos[..i + 1][..i] == recintos[..i];
        var decisao := AvaliaRecinto(recintos[i], animal, esp, n);
        if decisao.Some? {
          viaveis := viaveis + [decisao.value];
        }
      }
      assert recintos[..|recintos|] == recintos;
      var ordenados := new Viavel[|viaveis|](k requires 0 <= k < |viaveis| => viaveis[k]);
      assert ordenados[..] == viaveis;
      OrdenaNoLugar(ordenados);
      assert ordenados[..] == Ordena(Admitidos(recintos, animal, animais[animal], quantidade.Floor));
      if ordenados.Length == 0 {
        return Erro(SEM_RECINTO_VIAVEL);
      }
      r := RecintosViaveis(Textos(ordenados[..]));
    }
  }
}
