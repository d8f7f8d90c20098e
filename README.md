# RubyMonk exercise solutions in Dafny

This project models the exercise solutions in `RubyMonkProjects.rb`. They are small, unrelated Ruby
functions and classes over integers, strings, arrays and hashes:

- a calculator;
- word frequency, words sorted by length, string lengths and a palindrome test;
- a sum of cubes over a range, the Kaprekar-number test and a filter for non-repeated values;
- a summing array wrapper, a restaurant bill and a colour-contrast checker.

Each exercise is one module. The shared modules are `Wrappers` (Option and Result), `Seqs` (occurrence
counts, deletion, subsequences, reversal) and `RubyText` (ASCII `downcase`, whitespace `split`, joining
with spaces).

The exercises that work by updating variables in a loop are methods with loop invariants: `palindrome?`,
`sum_of_cubes`, `length_finder`, `MyArray#sum` and `Restaurant#cost`. Four of them are proved against a
specification function, and lemmas state the properties of that function. `length_finder` states its
result directly, index by index. The exercises that are single expressions are functions. `non_duplicated_values` deletes from the caller's array while
walking it. It is modelled as a class `RubyArray` whose `elems` field the method reassigns, and the method
returns the very object it was given.

Ruby integers are unbounded, as Dafny's `int` is, so nothing wraps around. Ruby's exceptions are modelled
as error values:

- `sort_string` on fewer than three words gives `Err` (`NoMethodError` or `TypeError` on `nil`);
- `Restaurant#cost` with an item missing from the menu gives `None` (`nil * q` raises).

## Model

| member | source | states |
|---|---|---|
| Calculator.Add | RubyMonkProjects.rb:6-9 | the sum minus either operand is the other operand |
| Calculator.Subtract | RubyMonkProjects.rb:11-14 | the difference plus `b` is `a` |
| Calculator.AddSubtractInverse | RubyMonkProjects.rb:5-15 | subtracting `b` undoes adding `b`, and adding undoes subtracting |
| RubyText.Downcase | RubyMonkProjects.rb:22 | same length, every character lower-cased in place, no upper-case letter left |
| RubyText.DowncaseIdempotent | RubyMonkProjects.rb:22 | lower-casing twice is lower-casing once |
| RubyText.WordCharsFrom | RubyMonkProjects.rb:22 | every character of a word from `split` is a character of the split string |
| RubyText.WordsOfJoin | RubyMonkProjects.rb:31 | splitting non-empty, whitespace-free words joined by single spaces gives back the same words |
| Frequency.FindFrequency | RubyMonkProjects.rb:20-24 | the result is the multiplicity of `word` among the words of the lower-cased sentence, and at most their number |
| Frequency.UnmatchableWordNeverCounted | RubyMonkProjects.rb:20-24 | since `word` is not lower-cased, an empty word or one with an upper-case letter or whitespace always counts 0 |
| Frequency.FrequencyIgnoresCase | RubyMonkProjects.rb:20-24 | lower-casing the sentence beforehand changes no frequency |
| WordSort.InsertByLength | RubyMonkProjects.rb:32 | inserting into words sorted by length keeps them sorted and adds exactly the new word |
| WordSort.SortByLength | RubyMonkProjects.rb:32 | the result is sorted by length and is a permutation of the input |
| WordSort.SortAlreadySorted | RubyMonkProjects.rb:32 | words already in length order are left unchanged |
| WordSort.SortString | RubyMonkProjects.rb:29-34 | a result exists exactly when the sentence has at least three words; with no words the error is the one for calling a method on `nil` |
| WordSort.SortStringShortestWords | RubyMonkProjects.rb:29-34 | a result splits into three of the words in length order, every other word is at least as long as the last, and the three are joined by single spaces |
| WordSort.SortStringDropsFourthWord | RubyMonkProjects.rb:33 | `"a bb ccc dddd"` gives `"a bb ccc"`, while sorting all words gives the sentence back |
| WordSort.SortWordsSortsAllWords | RubyMonkProjects.rb:29-34 | the corrected result splits into all the sentence's words, sorted by length |
| Lengths.LengthFinder | RubyMonkProjects.rb:52-58 | the output has the input's length and holds the length of each input string at the same index |
| Palindrome.Normalize | RubyMonkProjects.rb:72 | no space character is left, the rest of the lower-cased sentence keeps its order, and only the spaces are removed (the length drops by their number) |
| Palindrome.Palindromic | RubyMonkProjects.rb:70-80 | the normalised sentence equals its reversal exactly when character `j` equals character `len-1-j` for every `j` |
| Palindrome.IsPalindrome | RubyMonkProjects.rb:70-80 | true exactly when the normalised sentence equals its reversal, i.e. character `j` equals character `len-1-j` for every `j` |
| Palindrome.NormalizeReverse | RubyMonkProjects.rb:72 | normalising commutes with reversing |
| Palindrome.PalindromicReverse | RubyMonkProjects.rb:70-80 | a sentence passes exactly when its reversal passes |
| Palindrome.MirroredIsPalindromic | RubyMonkProjects.rb:70-80 | any sentence followed by its reversal passes |
| Cubes.SumOfCubes | RubyMonkProjects.rb:85-98 | for `a <= b` the result is the sum of `i^3` over `a..b`, and `a^3` when `a == b` |
| Cubes.CubeSum | RubyMonkProjects.rb:85-98 | four times the sum is `(b(b+1))^2 - ((a-1)a)^2` (Nicomachus), for any integer bounds |
| Cubes.CubeSumSplit | RubyMonkProjects.rb:85-98 | the sum over `a..b` is the sum over `a..m` plus the sum over `m+1..b` |
| NonDuplicated.RubyArray.DeleteIf | RubyMonkProjects.rb:109 | the array afterwards is its old contents without any element equal to `x` |
| NonDuplicated.NonDuplicatedValues | RubyMonkProjects.rb:103-113 | the returned object is the argument itself, and its contents are what the index walk with deletions leaves |
| NonDuplicated.Sweep | RubyMonkProjects.rb:103-113 | what the index walk with deletions leaves is a subsequence of the input: relative order kept |
| NonDuplicated.SweepAllOrNothing | RubyMonkProjects.rb:106-111 | every value either disappears or keeps all of its copies |
| NonDuplicated.SweepKeepsUnique | RubyMonkProjects.rb:106-111 | a value occurring exactly once in the input is still there, once |
| NonDuplicated.SweepMembers | RubyMonkProjects.rb:103-113 | every value of the result occurs in the input |
| NonDuplicated.PairsKeepLastPair | RubyMonkProjects.rb:103-113 | `[1, 1, 2, 2, 3, 3]` comes back as `[3, 3]` |
| NonDuplicated.UniqueValues | RubyMonkProjects.rb:103-113 | the corrected result is a subsequence of the input |
| NonDuplicated.UniqueValuesMembers | RubyMonkProjects.rb:103-113 | a value is in the corrected result exactly when it occurs once in the input |
| NonDuplicated.PairsHaveNoUniqueValues | RubyMonkProjects.rb:103-113 | the corrected result for `[1, 1, 2, 2, 3, 3]` is empty |
| Kaprekar.DigitCountBounds | RubyMonkProjects.rb:134 | the digit count `d` of `k` satisfies `10^(d-1) <= k < 10^d`, and `d = 1` exactly when `k < 10`, so `0` has one digit |
| Kaprekar.IsKaprekar | RubyMonkProjects.rb:132-139 | no negative number passes, since both parts of the split of `k*k` are non-negative |
| Kaprekar.KaprekarDivisibility | RubyMonkProjects.rb:132-139 | if `k` passes, `k*k - k` equals the left part times `10^n - 1` |
| Kaprekar.PowerOfTenIsNotKaprekar | RubyMonkProjects.rb:132-139 | `10^j` fails for every `j >= 1` |
| Kaprekar.FortyFiveIsKaprekar | RubyMonkProjects.rb:132-139 | 45 passes |
| Kaprekar.TwoNinetySevenIsKaprekar | RubyMonkProjects.rb:132-139 | 297 passes |
| Kaprekar.ZeroIsKaprekar | RubyMonkProjects.rb:132-139 | 0 passes |
| Summation.MyArray.constructor | RubyMonkProjects.rb:192-194 | the object holds the given array |
| Summation.MyArray.Sum | RubyMonkProjects.rb:196-210 | without a block the result is `initial_value` plus the sum of the elements; with a block `f` it is `initial_value` plus the sum of `f` over the elements |
| Summation.SeqSumAppend | RubyMonkProjects.rb:196-210 | the sum of a concatenation is the sum of the sums |
| Summation.SeqSumFromFront | RubyMonkProjects.rb:196-210 | summing from the front gives the same result as the left-to-right loop |
| Summation.IdentityBlockSum | RubyMonkProjects.rb:197-202 | a block returning its argument sums like no block |
| Summation.ScaledBlockSum | RubyMonkProjects.rb:197-202 | a block multiplying each element by `c` gives `c` times the plain sum |
| Orders.Restaurant.constructor | RubyMonkProjects.rb:217-219 | the object holds the given menu |
| Orders.Restaurant.Cost | RubyMonkProjects.rb:221-232 | `None` exactly when some ordered item is not on the menu; otherwise the sum over all orders and items of price times quantity (0 for no orders) |
| Orders.OrderCostRemove | RubyMonkProjects.rb:225-229 | any item of an order may be priced first: the cost does not depend on iteration order |
| Orders.OrderCostUnion | RubyMonkProjects.rb:225-229 | two orders with no common item cost, together, the sum of their costs |
| Orders.SingleItemCost | RubyMonkProjects.rb:225-229 | `q` of one item cost `q` times its price |
| Contrast.BrightnessIndex | RubyMonkProjects.rb:246-249 | the result is the floor of `(299r + 587g + 114b) / 1000`, and lies in `0..255` for components in `0..255` |
| Contrast.BrightnessDifference | RubyMonkProjects.rb:251-254 | non-negative, zero exactly when the brightness indices agree, at most 255 in range |
| Contrast.HueDifference | RubyMonkProjects.rb:256-259 | non-negative, zero exactly when the colours are equal, at most 765 in range |
| Contrast.DifferencesSymmetric | RubyMonkProjects.rb:251-268 | both differences and the contrast test are symmetric |
| Contrast.EnoughContrast | RubyMonkProjects.rb:261-268 | two colours with enough contrast are different and have different brightness indices |
| Contrast.NoContrastWithItself | RubyMonkProjects.rb:261-268 | a colour compared with itself has both differences 0 and never enough contrast |
| Contrast.HueTriangle | RubyMonkProjects.rb:256-259 | the hue difference obeys the triangle inequality |
| Contrast.BlackWhiteContrast | RubyMonkProjects.rb:261-268 | black against white has enough contrast |

## Findings

| source | as written | input that shows it | evidently intended | confidence | as-written member | corrected member |
|---|---|---|---|---|---|---|
| RubyMonkProjects.rb:106-110 | `each` walks the array by index while `delete_if` removes every copy of a repeated value from it. The element shifted into the current slot is then skipped. | `[1, 1, 2, 2, 3, 3]` gives `[3, 3]` | only the values that occur once, here `[]` | high, not executed | NonDuplicated.PairsKeepLastPair | NonDuplicated.UniqueValuesMembers |
| RubyMonkProjects.rb:33 | only the three shortest words are joined | `"a bb ccc dddd"` gives `"a bb ccc"` | all words sorted by length, joined by spaces | medium, not executed | WordSort.SortStringDropsFourthWord | WordSort.SortWordsSortsAllWords |

## Left out

- OptionPriceCalculator.rb is not part of this model: it is floating-point option pricing driven by `rand`, with a printing driver.
- `random_select` (RubyMonkProjects.rb:39-47) is left out: its result depends on `rand`.
- `number_shuffle` (RubyMonkProjects.rb:144-173) is left out: it depends on `Array#shuffle`, and it never returns when the number has repeated digits.
- `exec_time` (RubyMonkProjects.rb:178-184) is left out: it reads the clock and prints.
- The hiring expression (RubyMonkProjects.rb:63-65) is left out: it is top-level code about an undefined `candidate` object.
- `array_of_fixnums?` (RubyMonkProjects.rb:118-127) is left out: it tests runtime classes of dynamically typed values.
- RubyText.Downcase: only ASCII letters are lower-cased; Ruby also maps other Unicode letters.
- WordSort.SortByLength: a stable insertion sort, whereas Ruby's `sort` may put equal-length words in another order. The lemmas about `sort_string` hold for any such order.
- Cubes.SumOfCubes requires `a <= b`: with `a > b` the Ruby loop counts up from `a` forever and never returns.
- Kaprekar.IsKaprekar: the unused length of `k2`'s text is not computed; only integer arguments are modelled.
- Summation.MyArray.Sum: elements and block results are integers, and the block is a pure function. Ruby's `+` on strings, floats or arrays and blocks with side effects are not modelled.
- Orders.Restaurant.Cost: prices and quantities are integers, and the order of items inside a hash is not modelled. The lemma `OrderCostRemove` shows the total does not depend on it.
- Contrast.BrightnessIndex: colour components are integers; float components are not modelled.
- Lengths.LengthFinder: the elements are strings; arrays or hashes, which also answer `length`, are not modelled.
- Summation.MyArray.constructor: the object keeps the array's contents as they are when it is built. Ruby's `@array` shares the caller's array, so later changes the caller makes through that reference are not seen by the model.
- Orders.Restaurant.constructor: the object keeps the menu's contents as they are when it is built. Ruby's `@menu` shares the caller's hash, so later changes through that reference are not modelled.
- Calculator.Add: integer operands only; Ruby's `+` and `-` on floats, strings or arrays are not modelled.
