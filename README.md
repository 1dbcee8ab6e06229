# Zoo enclosure analysis in Dafny

This project models `RecintosZoo`, the zoo class in `src/recintos-zoo.js`.
The constructor builds two fixed tables:

- five enclosures (*recintos*), each with a number, a biome label, a total size, an occupied size and the species living there;
- six species (*animais*), each with the size of one individual and the biomes it adapts to. The first biome in the list is the primary one.

`analisaRecintos(animal, quantidade)` handles a request to place a quantity of one species. It works in four steps:

1. It rejects an unknown species, then a quantity that is not a positive integer.
2. It runs every enclosure through a chain of rules:
   - biome gate;
   - crocodile only in its exact biome;
   - capacity;
   - no newcomer that is not a resident species joins a carnivore;
   - no lone monkey in an empty enclosure;
   - hippos share an enclosure only in "savana e rio";
   - one extra unit of space when species are mixed.
3. It sorts the admitted enclosures: exact primary-biome matches first, then by description text.
4. It returns the descriptions, or the "no viable enclosure" error.

The files:

- `cadeia.dfy` (module `Cadeia`) covers the string operations the class uses:
  - `localeCompare` as a three-way comparison in code-point order (`Compara`);
  - `String.prototype.includes` (`Contem`);
  - the decimal rendering of a number in a template literal (`Decimal`, with its inverse `ValorDecimal`).
- `zoo.dfy` (module `Zoo`) holds the model itself:
  - the two tables (`RECINTOS`, `ANIMAIS`);
  - the per-enclosure decision `AvaliaRecinto`, which follows the order in which the code tests its conditions, and the rules stated one by one (`Admissivel`);
  - the filter over the table (`Admitidos`);
  - the comparator `ComparaViaveis` and the order it defines (`Ordenada`);
  - a stable insertion sort, given both as functions (`InsereOrdenado`, `Ordena`) and as in-place array methods proved against them (`AbreEspaco`, `InsereNoLugar`, `OrdenaNoLugar`);
  - the specification function `Analise`;
  - the class `RecintosZoo`. Its `AnalisaRecintos` loops over the table, pushes admitted entries, sorts them in an array in place and maps them to their texts.
- `propriedades.dfy` (module `ZooPropriedades`) holds the properties:
  - the comparator is a total order;
  - the sort returns the unique ordered permutation of the admitted entries;
  - each rule holds of every admitted enclosure;
  - descriptions are injective;
  - each error is reported exactly when it should be;
  - a successful result lists only admissible enclosures, each once.
- `exemplos.dfy` (module `ZooExemplos`) gives the outcome of concrete requests on the zoo's own tables. It derives each outcome enclosure by enclosure.

Descriptions are written as `Descricao(n, l, t)`, the template literal of line 68. For example, `Descricao(1, 6, 10)` is `"Recinto 1 (espaço livre: 6 total: 10)"`.

## Notes on the code's behaviour

The model follows the code as written in these places.

- **Biome gate (line 51).** The test is `biomas.includes(recinto.bioma) || recinto.bioma.includes(biomas[0])`. It asks whether the enclosure label contains the species' primary biome, not whether the primary biome contains the label. `PassaBioma` and `RegraBioma` state this direction. `SavanaERioEhSavana` shows that "savana e rio" passes for any savanna species.
- **Carnivore rule (lines 41-42, 53-54).** The comments at lines 41 and 53 speak of whether the newcomer is carnivorous. The test at line 54 is only `carnivorosNoRecinto && !recinto.animais.includes(animal)`: it looks at the carnivores already living in the enclosure and never at the newcomer's own diet. A lion is therefore admitted to enclosure 1 (monkeys) and enclosure 3 (gazelles), as `UmLeao` shows.
- **Two hippopotamuses.** Enclosure 3 has 5 units free and two hippos need 8, so the capacity test at line 52 refuses it. Only enclosure 4 is admitted (`DoisHipopotamos`).

## Model

| member | source | states |
|---|---|---|
| Zoo.RecintosZoo.constructor | src/recintos-zoo.js:2-21 | the zoo starts with exactly the enclosure table of lines 4-10 and the species table of lines 13-20, and every species has a primary biome |
| Zoo.RecintosZoo.AnalisaRecintos | src/recintos-zoo.js:23-85 | the method's validation, loop over the enclosures, in-place sort and final map return exactly `Analise` of the zoo's tables; it modifies nothing |
| Zoo.AvaliaRecinto | src/recintos-zoo.js:33-71 | the callback admits an enclosure iff it satisfies all the rules (biome gate, crocodile exact biome, no carnivore residents unless same species, no lone monkey in an empty enclosure, hippo mixing only in "savana e rio", space with the mixed-species unit); an admitted entry has non-negative free space, is described by number, free space and total, and records whether the biome is exactly the primary one |
| Zoo.Analise | src/recintos-zoo.js:23-85 | the analysis answers with one of the three error messages or with a non-empty list of at most one description per enclosure, and a list only for a species of the table |
| Zoo.QuantidadeValida | src/recintos-zoo.js:28 | a quantity that passes the test is an integer of at least one |
| Zoo.PassaBioma | src/recintos-zoo.js:51 | an enclosure whose label is exactly the species' primary biome always passes the biome gate |
| Zoo.AlgumCarnivoro | src/recintos-zoo.js:42 | the `some` over the residents is false on an enclosure without residents (its full meaning is `AlgumCarnivoroSse`) |
| Zoo.EspacoRequerido | src/recintos-zoo.js:63 | the space the newcomers take is their total size plus at most one unit, and exactly their total size in an enclosure without residents |
| Zoo.Admitidos | src/recintos-zoo.js:33-74 | the `forEach` pushes at most one entry per enclosure (which entries, and in which order, is stated by `AdmitidoVemDeRecinto`, `RecintoAdmitidoAparece` and `AdmitidosPasso`) |
| Zoo.Ordena | src/recintos-zoo.js:77-81 | the sort keeps the number of entries (that it returns an ordered permutation is `OrdenaCorreta`) |
| Zoo.Textos | src/recintos-zoo.js:84 | the `.map(r => r.texto)` gives one text per entry, the i-th text being the i-th entry's description |
| Zoo.PosicaoInsercaoEm | src/recintos-zoo.js:77-81 | a place after an entry the newcomer does not precede, followed only by entries it precedes, is the insertion point |
| Zoo.AbreEspaco | src/recintos-zoo.js:77-81 | shifting the sorted prefix opens the hole at the insertion point: entries before it stay, entries from it move one place right, the rest of the array is untouched |
| Zoo.InsereNoLugar | src/recintos-zoo.js:77-81 | inserting `a[i]` in place turns `a[..i+1]` into `InsereOrdenado` of the old prefix and element, leaving the rest of the array alone |
| Zoo.OrdenaPasso | src/recintos-zoo.js:77-81 | sorting one more entry is inserting it into the sorted prefix |
| Zoo.OrdenaNoLugar | src/recintos-zoo.js:77-81 | the in-place sort leaves the array equal to `Ordena` of its old contents |
| Cadeia.Compara | src/recintos-zoo.js:80 | the `localeCompare` model returns -1, 0 or 1 |
| Cadeia.ComparaZero | src/recintos-zoo.js:80 | the text comparison is zero iff the texts are equal |
| Cadeia.ComparaAntissimetrica | src/recintos-zoo.js:80 | swapping the texts negates the comparison |
| Cadeia.ComparaTransitiva | src/recintos-zoo.js:80 | "no later than" on texts is transitive |
| Cadeia.ComparaPrefixoComum | src/recintos-zoo.js:80 | a common prefix ("Recinto ") does not change the comparison |
| Cadeia.ContemPosicao | src/recintos-zoo.js:51 | when the label includes a text, that text starts at some position of the label |
| Cadeia.ContemEmPosicao | src/recintos-zoo.js:51 | a text starting at any position of the label is included in it (converse of ContemPosicao) |
| Cadeia.ContemComprimento | src/recintos-zoo.js:51 | a label never includes a longer text |
| Cadeia.ContemCaractere | src/recintos-zoo.js:51 | a label never includes a text with a character it lacks |
| Cadeia.Decimal | src/recintos-zoo.js:68 | the rendering of a number in the template literal is never empty, begins with "0" only for zero and has no leading zeros |
| Cadeia.DecimalIdaEVolta | src/recintos-zoo.js:68 | reading back the decimal rendering gives the number |
| ZooPropriedades.ComparaViaveisAntissimetrica | src/recintos-zoo.js:77-81 | the sort comparator is antisymmetric |
| ZooPropriedades.ComparaViaveisZero | src/recintos-zoo.js:77-81 | the comparator is zero only on identical entries |
| ZooPropriedades.ComparaViaveisTransitiva | src/recintos-zoo.js:77-81 | the comparator is transitive, so it is a consistent total order for `sort` |
| ZooPropriedades.ComparaViaveisGrupos | src/recintos-zoo.js:77-81 | the comparator answers -1, 0 or 1; an exact-biome entry comes before one that is not and vice versa, whatever their texts; within a group it is the text comparison |
| ZooPropriedades.OrdenadaPeloComparador | src/recintos-zoo.js:77-81 | exact-biome entries first and each group in text order is the same as every pair being in comparator order |
| ZooPropriedades.PosicaoInsercaoCorreta | src/recintos-zoo.js:77-81 | the newcomer precedes every entry after its insertion point and not the one just before |
| ZooPropriedades.OrdenadaPar | src/recintos-zoo.js:77-81 | in an ordered sequence any entry compares no later than any later one |
| ZooPropriedades.InsereOrdenadoIndice | src/recintos-zoo.js:77-81 | where each entry of the sequence after an insertion comes from |
| ZooPropriedades.InsereOrdenadoPar | src/recintos-zoo.js:77-81 | after inserting into an ordered sequence, every pair is in comparator order |
| ZooPropriedades.InsereOrdenadoCorreto | src/recintos-zoo.js:77-81 | inserting into an ordered sequence keeps it ordered and adds exactly the newcomer |
| ZooPropriedades.OrdenaCorreta | src/recintos-zoo.js:77-81 | the sort returns an ordered permutation of the admitted entries |
| ZooPropriedades.PrimeiroEhMinimo | src/recintos-zoo.js:77-81 | the first entry of an ordered sequence is no later than any other |
| ZooPropriedades.OrdenadaCauda | src/recintos-zoo.js:77-81 | the tail of an ordered sequence is ordered |
| ZooPropriedades.RestoMultiset | src/recintos-zoo.js:77-81 | dropping the first entry removes exactly one occurrence of it from the entries |
| ZooPropriedades.MesmoPrimeiro | src/recintos-zoo.js:77-81 | two ordered permutations of the same entries start alike |
| ZooPropriedades.OrdenadaUnica | src/recintos-zoo.js:77-81 | two ordered permutations of the same entries are equal, so the result does not depend on the sorting algorithm |
| ZooPropriedades.AdmitidoVemDeRecinto | src/recintos-zoo.js:33-74 | every pushed entry is the callback's entry for some enclosure of the table |
| ZooPropriedades.NumerosDiferentesTextosDiferentes | src/recintos-zoo.js:67-69 | two admitted enclosures with different numbers get different descriptions |
| ZooPropriedades.RecintoAdmitidoAparece | src/recintos-zoo.js:33-74 | every enclosure that passes the rules has its entry pushed |
| ZooPropriedades.AdmitidosVazio | src/recintos-zoo.js:33-74 | nothing is pushed iff no enclosure passes the rules |
| ZooPropriedades.AdmitidoAnteriorDifere | src/recintos-zoo.js:67-69 | an entry from an earlier enclosure differs in text from that of a later enclosure with another number |
| ZooPropriedades.AdmitidosDistintos | src/recintos-zoo.js:33-74 | with distinct enclosure numbers, no description is pushed twice |
| ZooPropriedades.DecimalSoDigitos | src/recintos-zoo.js:68 | a rendered number consists of digits only |
| ZooPropriedades.SeparaDigitos | src/recintos-zoo.js:68 | digits followed by a non-digit text split in one way only |
| ZooPropriedades.TiraPrefixo | src/recintos-zoo.js:68 | equal texts after a common prefix are equal |
| ZooPropriedades.DescricaoInjetiva | src/recintos-zoo.js:68 | a description determines the number, free space and total it was built from |
| ZooPropriedades.RegraBioma | src/recintos-zoo.js:36-39 | an admitted enclosure's label is in the species' biome list or contains its primary biome (the gate at line 51); for the crocodile it is exactly the primary biome (lines 36-39) |
| ZooPropriedades.RegraEspaco | src/recintos-zoo.js:34-35 | the free space reported is total minus occupied minus the newcomers' size minus one when species mix, and it is never negative (the test itself is at lines 48 and 63-68) |
| ZooPropriedades.AlgumCarnivoroSse | src/recintos-zoo.js:42 | the `some` over the residents is true iff some resident is a lion, leopard or crocodile |
| ZooPropriedades.MaisDeUmaEspecieSse | src/recintos-zoo.js:48 | the mixing test holds iff the enclosure has a resident and no resident is of the requested species |
| ZooPropriedades.RegraCarnivoros | src/recintos-zoo.js:42-54 | an enclosure with a carnivore resident never admits a species that does not live there |
| ZooPropriedades.RegraMacacoSozinho | src/recintos-zoo.js:45-57 | one monkey is never admitted to an enclosure with nothing occupied |
| ZooPropriedades.RegraHipopotamo | src/recintos-zoo.js:60 | hippos are admitted next to another species only in "savana e rio" |
| ZooPropriedades.AnaliseErros | src/recintos-zoo.js:25-28 | "Animal inválido" iff the species is unknown (whatever the quantity); "Quantidade inválida" iff the species is known and the quantity is not a positive integer; "Não há recinto viável" iff the input is valid and no enclosure passes the rules (line 84) |
| ZooPropriedades.AnaliseOrdenada | src/recintos-zoo.js:77-84 | on valid input the result lists the texts of any ordered permutation of the admitted entries |
| ZooPropriedades.AnaliseSoAdmissiveis | src/recintos-zoo.js:84 | every text of a successful result belongs to an enclosure of the table that passes all the rules, with its space left after placement |
| ZooPropriedades.PermutacaoTextosDistintos | src/recintos-zoo.js:77-81 | reordering entries with distinct texts keeps them distinct |
| ZooPropriedades.PermutacaoPar | src/recintos-zoo.js:77-81 | one pair of PermutacaoTextosDistintos |
| ZooPropriedades.AnaliseSemRepeticao | src/recintos-zoo.js:84 | with distinct enclosure numbers a successful result lists each enclosure once |
| ZooPropriedades.ContaDuas | src/recintos-zoo.js:77-81 | an entry at two places of a sequence occurs at least twice in it |
| ZooPropriedades.ContaUma | src/recintos-zoo.js:77-81 | an entry found at one place only occurs once |
| ZooExemplos.AdmitidosPasso | src/recintos-zoo.js:33-74 | deciding one more enclosure appends its entry, if any |
| ZooExemplos.AdmitidosDeCinco | src/recintos-zoo.js:33-74 | on a five-enclosure table the pushed entries are the five decisions in table order |
| ZooExemplos.EntradasAlternadas | src/recintos-zoo.js:33-74 | admitted, refused, admitted, refused, admitted pushes the three admitted entries in order |
| ZooExemplos.CatalogoPadraoValido | src/recintos-zoo.js:13-20 | every species of the table has a primary biome |
| ZooExemplos.EspeciesDaTabela | src/recintos-zoo.js:13-20 | the lion, crocodile, monkey and hippo rows of the species table are those of lines 14, 16, 17 and 19 |
| ZooExemplos.Descricao1Livre6Total10 | src/recintos-zoo.js:68 | the description of enclosure 1 with 6 free of 10 is the text "Recinto 1 (espaço livre: 6 total: 10)" |
| ZooExemplos.Descricao1Livre5Total10 | src/recintos-zoo.js:68 | the description of enclosure 1 with 5 free of 10 is the text "Recinto 1 (espaço livre: 5 total: 10)" |
| ZooExemplos.Descricao1Livre3Total10 | src/recintos-zoo.js:68 | the description of enclosure 1 with 3 free of 10 is the text "Recinto 1 (espaço livre: 3 total: 10)" |
| ZooExemplos.Descricao2Livre3Total5 | src/recintos-zoo.js:68 | the description of enclosure 2 with 3 free of 5 is the text "Recinto 2 (espaço livre: 3 total: 5)" |
| ZooExemplos.Descricao3Livre3Total7 | src/recintos-zoo.js:68 | the description of enclosure 3 with 3 free of 7 is the text "Recinto 3 (espaço livre: 3 total: 7)" |
| ZooExemplos.Descricao3Livre2Total7 | src/recintos-zoo.js:68 | the description of enclosure 3 with 2 free of 7 is the text "Recinto 3 (espaço livre: 2 total: 7)" |
| ZooExemplos.Descricao3Livre1Total7 | src/recintos-zoo.js:68 | the description of enclosure 3 with 1 free of 7 is the text "Recinto 3 (espaço livre: 1 total: 7)" |
| ZooExemplos.Descricao4Livre5Total8 | src/recintos-zoo.js:68 | the description of enclosure 4 with 5 free of 8 is the text "Recinto 4 (espaço livre: 5 total: 8)" |
| ZooExemplos.Descricao4Livre0Total8 | src/recintos-zoo.js:68 | the description of enclosure 4 with 0 free of 8 is the text "Recinto 4 (espaço livre: 0 total: 8)" |
| ZooExemplos.Descricao5Livre3Total9 | src/recintos-zoo.js:68 | the description of enclosure 5 with 3 free of 9 is the text "Recinto 5 (espaço livre: 3 total: 9)" |
| ZooExemplos.NumerosPadraoDistintos | src/recintos-zoo.js:4-10 | the enclosure numbers are distinct |
| ZooExemplos.FlorestaNaoEhSavana | src/recintos-zoo.js:51 | "floresta" does not contain "savana" |
| ZooExemplos.RioNaoEhSavana | src/recintos-zoo.js:51 | "rio" does not contain "savana" |
| ZooExemplos.SavanaERioEhSavana | src/recintos-zoo.js:51 | "savana e rio" contains "savana" |
| ZooExemplos.Recinto5TemLeao | src/recintos-zoo.js:9 | enclosure 5 holds a carnivore |
| ZooExemplos.DescricaoAntes | src/recintos-zoo.js:68-80 | descriptions of single-digit enclosures compare by enclosure number |
| ZooExemplos.UmMacacoRecinto1 | src/recintos-zoo.js:33-71 | one monkey in enclosure 1: admitted, exact biome, 6 free of 10 |
| ZooExemplos.UmMacacoRecinto2 | src/recintos-zoo.js:45-57 | one monkey in enclosure 2: refused, lone monkey in an empty enclosure |
| ZooExemplos.UmMacacoRecinto3 | src/recintos-zoo.js:33-71 | one monkey in enclosure 3: admitted by the substring gate, 3 free of 7 after the mixed-species unit |
| ZooExemplos.UmMacacoRecinto4 | src/recintos-zoo.js:51 | one monkey in enclosure 4: refused by the biome gate |
| ZooExemplos.UmMacacoRecinto5 | src/recintos-zoo.js:54 | one monkey in enclosure 5: refused, a lion lives there |
| ZooExemplos.AdmitidosUmMacaco | src/recintos-zoo.js:33-74 | one monkey: enclosures 1 and 3 pushed, in that order |
| ZooExemplos.DoisMacacosRecinto1 | src/recintos-zoo.js:33-71 | two monkeys in enclosure 1: admitted, 5 free of 10 |
| ZooExemplos.DoisMacacosRecinto2 | src/recintos-zoo.js:33-71 | two monkeys in enclosure 2: admitted, not exact biome, 3 free of 5 |
| ZooExemplos.DoisMacacosRecinto3 | src/recintos-zoo.js:33-71 | two monkeys in enclosure 3: admitted, 2 free of 7 |
| ZooExemplos.DoisMacacosRecinto4 | src/recintos-zoo.js:51 | two monkeys in enclosure 4: refused by the biome gate |
| ZooExemplos.DoisMacacosRecinto5 | src/recintos-zoo.js:54 | two monkeys in enclosure 5: refused, a lion lives there |
| ZooExemplos.AdmitidosDoisMacacos | src/recintos-zoo.js:33-74 | two monkeys: enclosures 1, 2 and 3 pushed |
| ZooExemplos.UmCrocodiloRecinto1 | src/recintos-zoo.js:39 | one crocodile in enclosure 1: refused, not exactly "rio" |
| ZooExemplos.UmCrocodiloRecinto2 | src/recintos-zoo.js:39 | one crocodile in enclosure 2: refused, not exactly "rio" |
| ZooExemplos.UmCrocodiloRecinto3 | src/recintos-zoo.js:39 | one crocodile in enclosure 3: refused, "savana e rio" is not exactly "rio" |
| ZooExemplos.UmCrocodiloRecinto4 | src/recintos-zoo.js:33-71 | one crocodile in enclosure 4: admitted, exact biome, 5 free of 8 |
| ZooExemplos.UmCrocodiloRecinto5 | src/recintos-zoo.js:39 | one crocodile in enclosure 5: refused, not exactly "rio" |
| ZooExemplos.AdmitidosUmCrocodilo | src/recintos-zoo.js:33-74 | one crocodile: only enclosure 4 pushed |
| ZooExemplos.DoisHipopotamosRecinto1 | src/recintos-zoo.js:35-52 | two hippos in enclosure 1: refused, 8 units do not fit in 7 |
| ZooExemplos.DoisHipopotamosRecinto2 | src/recintos-zoo.js:51 | two hippos in enclosure 2: refused by the biome gate |
| ZooExemplos.DoisHipopotamosRecinto3 | src/recintos-zoo.js:35-52 | two hippos in enclosure 3: refused, 8 units do not fit in 5 |
| ZooExemplos.DoisHipopotamosRecinto4 | src/recintos-zoo.js:33-71 | two hippos in enclosure 4: admitted, "rio" is in their list but not primary, 0 free of 8 |
| ZooExemplos.DoisHipopotamosRecinto5 | src/recintos-zoo.js:35-52 | two hippos in enclosure 5: refused, 8 units do not fit in 6 |
| ZooExemplos.AdmitidosDoisHipopotamos | src/recintos-zoo.js:33-74 | two hippos: only enclosure 4 pushed |
| ZooExemplos.UmLeaoRecinto1 | src/recintos-zoo.js:33-71 | one lion in enclosure 1: admitted next to the monkeys, 3 free of 10 |
| ZooExemplos.UmLeaoRecinto2 | src/recintos-zoo.js:51 | one lion in enclosure 2: refused by the biome gate |
| ZooExemplos.UmLeaoRecinto3 | src/recintos-zoo.js:33-71 | one lion in enclosure 3: admitted next to the gazelles, not exact biome, 1 free of 7 |
| ZooExemplos.UmLeaoRecinto4 | src/recintos-zoo.js:51 | one lion in enclosure 4: refused by the biome gate |
| ZooExemplos.UmLeaoRecinto5 | src/recintos-zoo.js:33-71 | one lion in enclosure 5: admitted with the resident lion, 3 free of 9 |
| ZooExemplos.AdmitidosUmLeao | src/recintos-zoo.js:33-74 | one lion: enclosures 1, 3 and 5 pushed, in table order |
| ZooExemplos.DezMacacosRecinto1 | src/recintos-zoo.js:35-52 | ten monkeys in enclosure 1: refused, no room |
| ZooExemplos.DezMacacosRecinto2 | src/recintos-zoo.js:35-52 | ten monkeys in enclosure 2: refused, no room |
| ZooExemplos.DezMacacosRecinto3 | src/recintos-zoo.js:35-52 | ten monkeys in enclosure 3: refused, no room |
| ZooExemplos.DezMacacosRecinto4 | src/recintos-zoo.js:51 | ten monkeys in enclosure 4: refused by the biome gate |
| ZooExemplos.DezMacacosRecinto5 | src/recintos-zoo.js:35-52 | ten monkeys in enclosure 5: refused, no room |
| ZooExemplos.AdmitidosDezMacacos | src/recintos-zoo.js:33-74 | ten monkeys: nothing pushed |
| ZooExemplos.TextosDeTres | src/recintos-zoo.js:84 | the texts of three entries |
| ZooExemplos.OrdenadaDois | src/recintos-zoo.js:77-81 | two entries in comparator order are ordered |
| ZooExemplos.TextosDeDois | src/recintos-zoo.js:84 | the texts of two entries |
| ZooExemplos.OrdenadaTres | src/recintos-zoo.js:77-81 | three entries in comparator order are ordered |
| ZooExemplos.TrocaUltimos | src/recintos-zoo.js:77-81 | swapping two entries keeps the same entries |
| ZooExemplos.AnaliseUm | src/recintos-zoo.js:77-84 | one admitted entry gives a one-text result |
| ZooExemplos.AnaliseDois | src/recintos-zoo.js:77-84 | two admitted entries already in order are returned in that order |
| ZooExemplos.AnaliseTres | src/recintos-zoo.js:77-84 | three admitted entries are returned in their comparator order |
| ZooExemplos.UmMacaco | src/recintos-zoo.js:23-85 | ("MACACO", 1) gives Recinto 1 (6 free of 10), then Recinto 3 (3 free of 7) |
| ZooExemplos.DoisMacacos | src/recintos-zoo.js:23-85 | ("MACACO", 2) gives Recinto 1 (5 of 10), Recinto 2 (3 of 5), Recinto 3 (2 of 7) |
| ZooExemplos.UmCrocodilo | src/recintos-zoo.js:23-85 | ("CROCODILO", 1) gives only Recinto 4 (5 free of 8) |
| ZooExemplos.DoisHipopotamos | src/recintos-zoo.js:23-85 | ("HIPOPOTAMO", 2) gives only Recinto 4 (0 free of 8) |
| ZooExemplos.UmLeao | src/recintos-zoo.js:23-85 | ("LEAO", 1) gives Recinto 1 (3 of 10), Recinto 5 (3 of 9), then Recinto 3 (1 of 7): the sort moves the exact-biome enclosure 5 ahead of 3 |
| ZooExemplos.ErrosAnimal | src/recintos-zoo.js:25 | an unknown species is refused, even with quantity 0 |
| ZooExemplos.ErrosQuantidade | src/recintos-zoo.js:28 | quantities 0, -1 and 1.5 of a known species are refused |
| ZooExemplos.ErroSemRecinto | src/recintos-zoo.js:84 | ten monkeys fit in no enclosure, so the answer is "Não há recinto viável" |
| ZooExemplos.ConsultaUmMacaco | src/recintos-zoo.js:2-85 | a fresh zoo answers ("MACACO", 1) with Recinto 1 and Recinto 3 |
| ZooExemplos.ConsultaRepetida | src/recintos-zoo.js:23-85 | the analysis writes neither table, so two identical requests to one zoo get the same answer |

## Left out

- Dynamic typing: the quantity is a `real`, which covers the positive and integer tests of line 28. Non-number arguments, `NaN` and infinities are not modelled, and neither is how `<=` and `Number.isInteger` treat them.
- Prototype keys: a name such as `"constructor"` passes the truthiness test of line 25 on a plain object and then throws at line 36. The species table is a `map`, which holds only the six species.
- `localeCompare` (line 80) is modelled as code-point order, without locale collation. The descriptions differ in their enclosure numbers, which are single digits here, so the two orders agree on them.
- `Array.prototype.sort` (lines 77-81) is modelled as a stable insertion sort. Its algorithm is engine-specific, but `OrdenadaUnica` shows that every sort consistent with the comparator gives the same result, because the comparator is a total order on the entries.
- `Zoo.Analise`, `Zoo.AvaliaRecinto` and `Zoo.PassaBioma` require every species to have at least one biome (`CatalogoValido`). With an empty list the code reads `biomas[0]` as `undefined`. The zoo's own table meets the condition (`CatalogoPadraoValido`).
- The module export on line 88 is not behaviour and is not modelled.
- `Zoo.Admitidos` and `Zoo.Ordena` state only sizes in their own contracts; what they compute is stated by the lemmas `AdmitidoVemDeRecinto`, `RecintoAdmitidoAparece`, `AdmitidosVazio`, `OrdenaCorreta` and `OrdenadaUnica` in `ZooPropriedades`.
- `Zoo.MaisDeUmaEspecie`, `Zoo.Descricao`, `Zoo.ComparaViaveis` and `Cadeia.Contem` carry no contract of their own; their meaning is stated by `MaisDeUmaEspecieSse`, `DescricaoInjetiva` with the `Descricao…Livre…Total…` lemmas, `ComparaViaveisGrupos` with the other comparator lemmas, and `ContemPosicao` with `ContemEmPosicao`.
