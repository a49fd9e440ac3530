# Verified model of a threshold-cryptography library

The library is a Go toolkit for exact algebra, number theory, bit manipulation and round-based
multi-party protocols. This project models its hardest parts in Dafny and proves what they are for.
Fields, modules and pairings are records of operations with their laws, so every result holds over
every field and every group; hash functions, random draws and the network are parameters.

| part | files |
|---|---|
| linear algebra over a field | Fields, Vectors, RowOperations, FlatMatrix, LinearSolver, Determinants, SquareMatrices |
| modules, lifting, polynomials | Modules, Lifting, Polynomials, PolynomialEvaluation |
| Joye-Paillier safe-prime search | NumberTheory, QuadraticResidues, JoyePaillier, SafePrimeOrbit, ShiftOverflow |
| the Jacobi symbol | Legendre, Reciprocity, JacobiSymbol |
| packed-bit transposition | PackedBits, BitTranspose |
| constant-time comparison | ConstantTime |
| messages between parties | Options, Network, EchoBroadcast, MessageRouter |
| span-program sharing and redistribution | SpanPrograms, PartySums, Redistribution, RedistributionParty, RedistributionRuns, RedistributionNetwork, RedistributionBlame |
| sessions and agreed randomness | SessionContext, SessionSetup, AgreeOnRandom |
| signatures, encodings, commitments | Groups, BlsAggregation, Base58, Equivocation |

## Main results

- Gauss-Jordan elimination on a flat buffer is sound and complete, and its answer is a function of the
  system alone: the one solution with zero free variables. Inversion succeeds exactly when the
  Laplace determinant is non-zero, and elimination computes that determinant.
- Every candidate of every safe-prime orbit has the announced size, residue and coprimality.
- The butterfly transpose equals the bit-by-bit one; long division inverts multiplication, uniquely.
- Quadratic reciprocity is proved from Gauss's lemma, so the Jacobi loop is shown to return the
  Jacobi symbol itself, a product of Legendre symbols.
- Redistribution keeps the secret and the public key in every honest run of any number of parties, from
  their constructors to their shards; under arbitrary messages a returned shard still verifies, and a
  previous shareholder that rejects names a misbehaving sender. With any mix of honest and faulty
  parties, consistent round-1 broadcasts and honest anchors, no honest party ever names an honest one.
- A session is set up exactly when every peer's messages are good, and its streams are given byte by byte:
  whatever contribution differs, published or pairwise, the bytes fed to the hashes differ too.
- Aggregate verification is an if-and-only-if for each scheme with the hashed messages written out; a
  safe-prime worker returns safe primes, for every primality test that is never wrong.
- Echo broadcast agrees and delivers with any number of faulty parties; router results do not depend
  on interleaving; session contexts stay paired along every chain of sub-contexts and transcript entries.
- Agreement on randomness: parties that finish with consistent broadcasts output the same exclusive or of
  all committed contributions, unless a round was retried (see below).
- The safe-prime workers draw below bMax + 1, a 64-bit sum that must not wrap to zero. It can wrap only
  when a power of two lies in the window from (2^64 + 3) * Pi to (2^64 + 16) * Pi, which is a check on
  the prime table alone; WrapExample is a table, not the library's, where one does.

## Where the code and its promises part

- The setup of the safe-prime search calls its 64-bit overflow an internal error. It cannot happen
  while the sieve stops inside the prime table. With Pi the product of the whole table, it happens for
  every size with 2^(bits-1) >= (2^64 + 16) * Pi and for none with 2^(bits-1) < (2^64 + 4) * Pi.
- The Jacobi routine documents that negative x is reduced modulo y first. The code reduces |x|, and
  the result differs in sign exactly for negative x, y equal to 3 modulo 4 and a non-zero symbol.
- Round 3 of redistribution notes that its last checks never fail once the per-sender checks pass.
  That holds for previous shareholders. With an anchor it holds exactly when the anchor's zero vector
  commits to zero, which the anchor's receiver does not check. It takes every sender publishing the same
  vector that does not commit to zero; RedistributionRuns.AnchoredFailure constructs such a run, in which
  every message passes and round 3 fails naming nobody.
- Round 3 of the agreement on randomness folds contributions into its state in place (pkg/mpc/aor/rounds.go:76-82)
  and keeps them there when it stops at a bad opening, without advancing the round. A retried call folds
  them again: its output is the exclusive or of all contributions exactly when what the aborted calls
  folded cancels out. AgreeOnRandom.RetriedRound3 and RetryExample are inputs on which it does not.
- Fast aggregate verification compares messages in hexadecimal, which does not tell a nil message from
  an empty one: an empty first message followed by nil ones can pass the fast path, while the general
  path refuses nil messages (BlsAggregation.FastPathAlone).
- A call of the router that fails, unless on a conflict among messages it had buffered, has already
  taken the matching messages out of its buffer: a retry under the same correlation identifier succeeds
  only if every sender sends again (MessageRouter.LostMessage).
- The packed-bit transpose without columns is an error on the fast path and an empty result on the
  slow one (BitTranspose.ColumnFree).

## Model

| member | source | states |
|---|---|---|
| FlatMatrix.Matrix.Get | pkg/base/mat/traits.go:249-265 | The entry at (r, c) of the flat row-major buffer is the entry of the matrix the buffer represents. |
| FlatMatrix.Matrix.SwapRowAssign | pkg/base/mat/traits.go:541-550 | Swapping two stretches of the buffer in place swaps exactly those rows of the represented matrix. |
| FlatMatrix.Matrix.ScaleRowAssign | pkg/base/mat/solver.go:126-134 | Scaling one stretch in place scales exactly that row. |
| FlatMatrix.Matrix.SubtractRowAssign | pkg/base/mat/solver.go:136-149 | Subtracting a multiple of one stretch from another changes exactly that row, by that multiple of the pivot row. |
| RowOperations.SwapRowsKeepsKernel | pkg/base/mat/solver.go:118-124 | A row swap keeps the solution set. |
| RowOperations.ScaleRowKeepsKernel | pkg/base/mat/solver.go:126-134 | Scaling a row by a non-zero scalar keeps the solution set. |
| RowOperations.ClearColumnKeepsKernel | pkg/base/mat/solver.go:136-149 | Eliminating a column from all other rows keeps the solution set. |
| RowOperations.PivotStepKeepsKernel | pkg/base/mat/solver.go:105-153 | A whole pivot step (swap, scale, eliminate) keeps the solution set. |
| RowOperations.EchelonPivot | pkg/base/mat/solver.go:105-153 | A pivot step extends the partial reduced echelon form by one pivot. |
| LinearSolver.Reduce | pkg/base/mat/solver.go:97-153 | The elimination loop ends in reduced echelon form with the solution set of the input. |
| LinearSolver.SolveAugmented | pkg/base/mat/solver.go:97-171 | Returns the solution whose free variables are zero, or nothing exactly when the system has no solution. |
| LinearSolver.CanonicalIsUnique | pkg/base/mat/solver.go:162-170 | The solution with zero free variables is unique, so the solver's answer is a function of the system and not of its pivots. |
| LinearSolver.SolveRight | pkg/base/mat/solver.go:12-47 | Over any field and any sizes: returns x with M*x = b, and refuses exactly when there is none or the shapes do not match. |
| LinearSolver.SolveLeft | pkg/base/mat/solver.go:50-93 | Returns x with x*M = r through the transposed augmented system, and refuses exactly when there is none or the shapes do not match. |
| LinearSolver.TransposedSolution | pkg/base/mat/solver.go:62-80 | Solutions of x*M = r are the solutions of the transposed system. |
| Determinants.RowLinear | pkg/base/mat/square.go:273-308 | The Laplace determinant is linear in every row. |
| Determinants.RowsSwapped | pkg/base/mat/square.go:286-289 | Swapping two rows negates the Laplace determinant. |
| Determinants.RowAdded | pkg/base/mat/square.go:294-305 | Adding a multiple of one row to another keeps the Laplace determinant. |
| SquareMatrices.JointStep | pkg/base/mat/square.go:226-259 | The two eliminations running in lock step are one pivot step on the matrix that joins a and out. |
| SquareMatrices.PivotStepDet | pkg/base/mat/square.go:226-259 | A pivot step keeps singular matrices singular and regular ones regular. |
| SquareMatrices.StuckColumn | pkg/base/mat/square.go:222-225 | No pivot in a column means the Laplace determinant is zero. |
| SquareMatrices.TryInv | pkg/base/mat/square.go:215-262 | Succeeds exactly when the Laplace determinant is non-zero, and then returns N with N*M = I and M*N = I. |
| SquareMatrices.Determinant | pkg/base/mat/square.go:275-308 | Elimination with pivoting returns the Laplace determinant; so it is non-zero exactly when TryInv succeeds. |
| Lifting.Lift | pkg/base/mat/module_valued.go:30-48 | Entrywise lifting of a matrix to multiples of a base point; fails exactly on an empty shape. |
| Lifting.LeftAction | pkg/base/mat/module_valued.go:53-85 | Entry (i, j) is the combination of column j with the coefficients of row i; fails exactly on mismatched or empty shapes. |
| Lifting.RightAction | pkg/base/mat/module_valued.go:90-122 | Entry (i, j) is the combination of row i with the coefficients of column j; fails exactly on mismatched or empty shapes. |
| Lifting.TryMul | pkg/base/mat/traits.go:944-963 | The matrix product, refused exactly on mismatched shapes. |
| Lifting.LeftActionOfLift | pkg/base/mat/module_valued.go:27-85 | Lifting commutes with linear maps: acting with A on the lift of R is the lift of A*R. |
| Lifting.RightActionOfLift | pkg/base/mat/module_valued.go:87-122 | The same from the right. |
| Lifting.LeftActionIsAction | pkg/base/mat/module_valued.go:50-85 | Acting with B and then with A is acting with A*B, on arbitrary module elements. |
| Lifting.Eval | pkg/base/polynomials/polynomial.go:204-216 | Horner's loop computes the sum of c_i * t^i; zero for an empty coefficient list. |
| Lifting.EvalModule | pkg/base/polynomials/polynomial_module.go:409-418 | Horner's loop over a module computes the sum of t^i * x_i. |
| Lifting.LiftPolynomial | pkg/base/polynomials/polynomial_module.go:19-29 | Lifts every coefficient. |
| Lifting.EvalOfLift | pkg/base/polynomials/polynomial_module.go:17-29 | Evaluating a lifted polynomial is lifting its evaluation. |
| Polynomials.Degree | pkg/base/polynomials/polynomial.go:434-441 | The degree, trailing zeros ignored, -1 for zero. |
| Polynomials.Equal | pkg/base/polynomials/polynomial.go:258-276 | Compares as polynomials: exactly when all coefficients agree, whatever the trailing zeros. |
| Polynomials.Add | pkg/base/polynomials/polynomial.go:308-322 | Adds coefficient by coefficient over unequal lengths. |
| Polynomials.Mul | pkg/base/polynomials/polynomial.go:330-345 | The double loop computes the convolution of the coefficients. |
| PolynomialEvaluation.ValAdd | pkg/base/polynomials/polynomial.go:308-322 | The value of a sum is the sum of the values, at every point. |
| PolynomialEvaluation.ValMul | pkg/base/polynomials/polynomial.go:330-345 | The value of a product is the product of the values, at every point. |
| PolynomialEvaluation.ValDivision | pkg/base/polynomials/polynomial.go:465-525 | p(t) = q(t)*quot(t) + rem(t) at every point t. |
| Polynomials.EuclideanDiv | pkg/base/polynomials/polynomial.go:468-525 | Refuses exactly a zero divisor; otherwise p = q*quot + rem with rem of smaller degree, for inputs with trailing zeros too. |
| Polynomials.LongDivide | pkg/base/polynomials/polynomial.go:493-517 | The loop on the remainder buffer terminates with the division identity and a reduced remainder. |
| Polynomials.DivisionUnique | pkg/base/polynomials/polynomial.go:465-525 | Quotient and remainder are unique up to Equal. |
| QuadraticResidues.EulerCriterion | pkg/base/nt/joyepaillier.go:434-447 | Euler's criterion, on which the search for non-residues rests: n^((p-1)/2) is 1 for residues and -1 for non-residues. |
| QuadraticResidues.NonResidueExists | pkg/base/nt/joyepaillier.go:434-447 | Every odd prime has a non-residue, so the search cannot come back empty. |
| JoyePaillier.PickPi | pkg/base/nt/joyepaillier.go:220-246 | The sieve product takes the longest prefix of the prime table that fits the target. |
| JoyePaillier.ModInverseSmall | pkg/base/nt/joyepaillier.go:423-432 | The least inverse by brute force, 0 exactly when there is none. |
| JoyePaillier.ModulusMod16 | pkg/base/nt/joyepaillier.go:262-280 | m = w*Pi is 4 modulo 16. |
| JoyePaillier.PickAnchor | pkg/base/nt/joyepaillier.go:283-302 | l is the least multiple of 4*Pi that is at least 2^(bits-1). |
| JoyePaillier.AnchorFacts | pkg/base/nt/joyepaillier.go:283-303 | 4 and Pi divide l, and 2^(bits-1) <= l < 2^(bits-1) + 4*Pi. |
| JoyePaillier.ShiftFacts | pkg/base/nt/joyepaillier.go:304-318 | bMax is the largest b with l + m + b*Pi <= 2^bits, and it is not negative. |
| JoyePaillier.SmallestQNRmod | pkg/base/nt/joyepaillier.go:434-447 | Returns the least non-residue of an odd prime. |
| JoyePaillier.CrtStep | pkg/base/nt/joyepaillier.go:330-348 | Adding the right multiple of the modulus so far keeps the old congruences and meets the new one. |
| JoyePaillier.BuildU | pkg/base/nt/joyepaillier.go:330-348 | u lies in [0, Pi) and matches the chosen non-residue modulo every sieve prime. |
| JoyePaillier.UnitsOfModulus | pkg/base/nt/joyepaillier.go:353-380 | x is a unit modulo m exactly when it is odd and no sieve prime divides it. |
| JoyePaillier.LiftU | pkg/base/nt/joyepaillier.go:353-380 | The lift loop adds Pi at most once and ends with a unit modulo m. |
| JoyePaillier.SampleA | pkg/base/nt/joyepaillier.go:382-409 | a is the square of a unit modulo m and not 1. |
| JoyePaillier.ComputeJoyeParams | pkg/base/nt/joyepaillier.go:215-421 | For bits >= 16 the only failures are missing randomness and bMax >= 2^64, the latter exactly then; otherwise every parameter meets its stated range, divisibility, residue and unit condition. |
| SafePrimeOrbit.OrbitInvariant | pkg/base/nt/primes.go:339-476 | Every k of the orbit, after any number of recyclings, is a non-residue modulo each sieve prime and 3 modulo 4. |
| SafePrimeOrbit.CandidateIsSound | pkg/base/nt/primes.go:220-236 | A candidate built from such a k lies in [2^(bits-1), 2^bits), is 3 modulo 4, and both q and (q-1)/2 are coprime to 2*Pi. |
| SafePrimeOrbit.EveryCandidateIsSound | pkg/base/nt/primes.go:353-476 | The same for every unit chi, every b in [0, bMax] and every number of recyclings. |
| SafePrimeOrbit.OrbitForm | pkg/base/nt/primes.go:353-476 | In closed form, k after j recyclings is a^j (4 u chi^2 + 3 m') modulo m. |
| SafePrimeOrbit.CandidateWindow | pkg/base/nt/primes.go:437-440 | The candidate is the one number congruent to k + l modulo m among the m numbers from l + b*Pi on. |
| SafePrimeOrbit.FirstCandidateExample | pkg/base/nt/primes.go:437-452 | A candidate the tests must turn away: 33023 for 16 bits, prime with composite half 16511. |
| SafePrimeOrbit.WalkOrbit | pkg/base/nt/primes.go:423-476 | Returns the first candidate of the orbit to which all four test calls say yes, on q and on (q-1)/2, each at its own count; it is sound, and with a test that is never wrong q and (q-1)/2 are prime. Gives up only after 2^16 candidates, none of which had all four answers. |
| SafePrimeOrbit.BarrenMeans | pkg/base/nt/primes.go:423-476 | A walk that was given up held no candidate to which all four test calls say yes. |
| SafePrimeOrbit.Worker | pkg/base/nt/primes.go:268-476 | The outer loop over all draws of chi and b: no walk is skipped, rejected draws are exactly the non-units, a result is the first hit of the last walk and a safe prime if the test is never wrong, and the draw below bMax + 1 panics just when that sum wraps to zero and a unit was drawn. |
| ShiftOverflow.ShiftWindow | pkg/base/nt/joyepaillier.go:304-318 | 2^(bits-1) fixes bMax up to 13 steps: (bMax + 4)*Pi <= 2^(bits-1) < (bMax + 17)*Pi. |
| ShiftOverflow.ShortSieveFits | pkg/base/nt/joyepaillier.go:304-318 | bMax stays below 2^64 as long as the sieve stopped before the end of the prime table. |
| ShiftOverflow.OverflowThreshold | pkg/base/nt/joyepaillier.go:304-318 | The exit marked as internal error is taken whenever 2^(bits-1) is at least (2^64 + 16) times the product of the whole table, and never below (2^64 + 4) times it. |
| ShiftOverflow.OverflowStays | pkg/base/nt/joyepaillier.go:304-318 | Once a size takes that exit, every larger size does. |
| ShiftOverflow.OverflowExactly | pkg/base/nt/joyepaillier.go:304-318 | If 2^(n-1) lies below (2^64 + 3)*Pi and 2^n at or above (2^64 + 16)*Pi, the sizes that take it are exactly those above n bits. |
| ShiftOverflow.LargeBitsOverflow | pkg/base/nt/joyepaillier.go:304-318 | Whatever the table of at most 2047 primes, the exit is taken at the latest from 30771 bits on. |
| ShiftOverflow.ShortSieveNoWrap | pkg/base/nt/primes.go:268-268 | While the sieve stopped before the end of the table bMax + 1 does not wrap, so no worker panics. |
| ShiftOverflow.WrapWindow | pkg/base/nt/primes.go:268-268 | bMax + 1 can wrap only when (2^64 + 3)*Pi <= 2^(bits-1) < (2^64 + 16)*Pi. |
| ShiftOverflow.NoWrapAtAnySize | pkg/base/nt/primes.go:268-268 | A sieve whose window contains no power of two, which can be checked on Pi alone, makes it wrap at no size. |
| ShiftOverflow.WrapExample | pkg/base/nt/primes.go:268-268 | The window is not empty: a table of eleven primes and 144 bits meet every condition of the setup and leave no bMax but 2^64 - 1. |
| Legendre.GaussLemma | pkg/base/nt/jacobi_purego.go:11-20 | Gauss's lemma for the Legendre symbol, the first half of the law the loop relies on. |
| Reciprocity.QuadraticReciprocity | pkg/base/nt/jacobi_purego.go:58-62 | Quadratic reciprocity for distinct odd primes: the sign of the swap. |
| Reciprocity.LegTwo | pkg/base/nt/jacobi_purego.go:22-25 | The symbol of 2 depends on the prime modulo 8, as the table says. |
| JacobiSymbol.JacLower | pkg/base/nt/jacobi_purego.go:11-20 | The Jacobi symbol, a product of Legendre symbols, is multiplicative below. |
| JacobiSymbol.JacUpper | pkg/base/nt/jacobi_purego.go:44-56 | ... and above. |
| JacobiSymbol.JacCong | pkg/base/nt/jacobi_purego.go:64-71 | ... and depends on the upper argument only modulo the lower one. |
| JacobiSymbol.JacTwo | pkg/base/nt/jacobi_purego.go:22-25 | The table entry at b mod 8 is the Jacobi symbol of 2 over b. |
| JacobiSymbol.JacReciprocity | pkg/base/nt/jacobi_purego.go:58-62 | Reciprocity for all odd positive a and b, coprime or not. |
| JacobiSymbol.SwapValue | pkg/base/nt/jacobi_purego.go:58-62 | The test on the second lowest bits gives the sign of reciprocity. |
| JacobiSymbol.StripTwos | pkg/base/nt/jacobi_purego.go:46-56 | Stripping factors of two terminates and changes the symbol by the table entry for an odd count. |
| JacobiSymbol.Step | pkg/base/nt/jacobi_purego.go:46-71 | One round strictly decreases the first argument, keeps the second odd, and keeps the signed symbol and the gcd. |
| JacobiSymbol.Jacobi | pkg/base/nt/jacobi_purego.go:21-75 | Terminates for every x and odd y; the result is the Jacobi symbol of the absolute value of x over y, in {-1, 0, 1}, and 0 exactly when gcd(x, y) is not 1. |
| JacobiSymbol.NegativeArgument | pkg/base/nt/jacobi_purego.go:30-33 | For negative x the result is the symbol of x exactly when y is 1 modulo 4 or the symbol is 0. |
| JacobiSymbol.NegativeExample | pkg/base/nt/jacobi_purego.go:15-15 | Reducing negative x does change the result: at x = -1, y = 3 the code gives 1 and the symbol is -1. |
| BitTranspose.Stage | pkg/ot/bits.go:230-242 | One butterfly stage applied in place to 64 words. |
| BitTranspose.ExchangeStep | pkg/ot/bits.go:230-242 | After stage s the lowest s index bits of row and column have been exchanged. |
| BitTranspose.Transpose64 | pkg/ot/bits.go:220-243 | Bit j of out[i] is bit i of in[j]. |
| BitTranspose.TransposeSlow | pkg/ot/bits.go:136-173 | The bit-by-bit transpose, refused exactly on empty, ragged or misaligned input. |
| BitTranspose.TransposeFast | pkg/ot/bits.go:178-217 | The block transpose writes the transpose of every rectangular input it accepts. |
| BitTranspose.TransposePackedBits | pkg/ot/bits.go:120-131 | Whichever path is chosen, the result is the transpose; the errors are characterised exactly. |
| BitTranspose.TransposeUnique | pkg/ot/bits.go:117-119 | A matrix has only one transpose. |
| BitTranspose.TransposeTwice | pkg/ot/bits.go:117-131 | Transposing twice through the dispatcher returns the input, for every matrix with a column; refused exactly on empty, ragged, misaligned or column-free input. |
| BitTranspose.FastEqualsSlow | pkg/ot/bits.go:136-217 | Where both paths accept the input they return the same matrix. |
| BitTranspose.ColumnFree | pkg/ot/bits.go:136-217 | Without columns the paths disagree: the fast one refuses what the slow one maps to the empty matrix. |
| ConstantTime.LessU64Correct | pkg/base/ct/ints.go:135-140 | The borrow expression is 1 exactly when x < y, for all 64-bit words. |
| ConstantTime.LessI64Correct | pkg/base/ct/ints.go:143-148 | Flipping the sign bits gives the signed order. |
| ConstantTime.IsZero | pkg/base/ct/ints.go:10-16 | 1 exactly for zero. |
| ConstantTime.EqualU64 | pkg/base/ct/ints.go:24-26 | 1 exactly for equal words. |
| ConstantTime.CSelect | pkg/base/ct/ints.go:66-69 | The mask selects the first operand on 0 and the second on 1. |
| ConstantTime.Isqrt64 | pkg/base/ct/ints.go:106-120 | The integer square root of every 64-bit n, squares taken modulo 2^64. |
| ConstantTime.CompareBytes | pkg/base/ct/bytes.go:8-46 | Exactly the lexicographic order: lt, eq and gt are 1 when x < y, x = y and y < x. |
| Network.ValidateIncoming | pkg/network/mpc.go:29-43 | Accepts exactly when every sender's message is present and valid; names the sender of an invalid one. |
| EchoBroadcast.Participant.Round1 | pkg/network/echo/rounds.go:14-32 | Sends one payload to everyone else and records it. |
| EchoBroadcast.Participant.Round2 | pkg/network/echo/rounds.go:35-63 | Records and echoes exactly the received payloads; fails exactly when one is missing, with the payloads before it recorded. |
| EchoBroadcast.Participant.Round3 | pkg/network/echo/rounds.go:66-107 | Accepts exactly when every third party repeats every payload and all payloads decode, a missing payload counting as the empty one; returns exactly the decoded payload of every other party. |
| EchoBroadcast.Play | pkg/network/echo/rounds.go:14-107 | A participant playing its part of a run sends what the run says, finishes exactly when the run says so, and outputs exactly what the run gives it. |
| EchoBroadcast.Agreement | pkg/network/echo/rounds.go:66-92 | With any faulty parties, two honest finishers hold the same payload for every third sender. |
| EchoBroadcast.Validity | pkg/network/echo/rounds.go:14-92 | An honest sender's message is delivered unchanged. |
| EchoBroadcast.AllHonestFinish | pkg/network/echo/rounds.go:14-107 | When everyone is honest, everyone finishes with everyone else's message. |
| MessageRouter.Router.ScanBuffer | pkg/network/router.go:77-96 | Takes exactly the matching messages out of the buffer and keeps the others in order; a conflict leaves the buffer as it was. |
| MessageRouter.Router.Handle | pkg/network/router.go:113-133 | One delivered message: taken, buffered last, or refused as conflicting or for want of room. |
| MessageRouter.Router.ReceiveFrom | pkg/network/router.go:71-136 | On success one payload per requested sender, each from a message seen, stopping at the first delivery that completes the set; after every outcome the buffer is the unmatched messages seen so far in order, or the old buffer when a conflict was buffered already. |
| MessageRouter.RetryReceive | pkg/network/router.go:77-136 | A call retried after such a failure succeeds only if every requested sender has sent again since. |
| MessageRouter.LostMessage | pkg/network/router.go:94-100 | An input on which this loses a message: both messages are delivered, one before and one after a transport failure, and the retry fails where one call succeeds. |
| MessageRouter.KeptConserves | pkg/network/router.go:77-96 | No message is lost or duplicated by the selection. |
| MessageRouter.KeptConcat | pkg/network/router.go:77-94 | What a call leaves for later keeps its order: selection goes through a concatenation part by part. |
| MessageRouter.KeptSingle | pkg/network/router.go:77-94 | A single message is kept unless identifier and sender match. |
| MessageRouter.AcceptedConcat | pkg/network/router.go:96-134 | So does taking deliveries in. |
| MessageRouter.AcceptedSingle | pkg/network/router.go:101-132 | A single delivery is taken in when its sender is in the quorum and it decodes. |
| MessageRouter.ReceiveAll | pkg/network/router.go:71-136 | If each sender sends one payload per correlation identifier, any sequence of successful calls returns results fixed by that alone, for every interleaving, and no call reports a conflict. |
| SpanPrograms.ReconstructionVector | pkg/mpc/sharing/scheme/kw/msp/msp.go:134-160 | The coefficients of a qualified set, the same for every caller; fails exactly for unqualified sets. |
| SpanPrograms.ComputeShare | pkg/mpc/sharing/scheme/kw/dealerfunc.go:19-87 | The rows of M*r that the holder owns; over a group, the rows of M*V. |
| SpanPrograms.ConvertToAdditive | pkg/mpc/sharing/scheme/kw/scheme.go:225-308 | The share weighted by its holder's coefficients; fails exactly when the share or the quorum does not fit. |
| SpanPrograms.AdditiveSharesSum | pkg/mpc/sharing/scheme/kw/scheme.go:220-224 | The additive shares of a qualified quorum add up to the secret, for scalar and for lifted shares. |
| SpanPrograms.Verify | pkg/mpc/sharing/vss/feldman/scheme.go:189-220 | Accepts exactly when the lifted share is the one the verification vector gives. |
| SpanPrograms.DealtShareVerifies | pkg/mpc/sharing/vss/feldman/scheme.go:136-156 | Honestly dealt shares verify. |
| SpanPrograms.VerifiesSum | pkg/mpc/sharing/vss/feldman/verification_vector.go:48-63 | Sums of verified shares verify against the combined vectors. |
| SpanPrograms.LiftedAdditive | pkg/mpc/sharing/vss/feldman/scheme.go:237-315 | Converting a verified share and lifting it is converting its lifted share. |
| Redistribution.PartialsCombine | pkg/mpc/redistribute/rounds.go:270-294 | The expected partial keys combine to the old key shifted by what the zero vector commits to. |
| Redistribution.CheckTrusted | pkg/mpc/redistribute/rounds.go:257-294 | Accepts exactly when every sender matches the reference and commits to its expected partial key; names the sender that does not. |
| Redistribution.KeyShift | pkg/mpc/redistribute/rounds.go:174-294 | When every sender passes, the aggregated key is the old key shifted by the zero vector's commitment, for any messages. |
| Redistribution.KeyCheckExactly | pkg/mpc/redistribute/rounds.go:296-311 | Then the old-key check passes exactly when the reference commits to a sharing of zero. |
| RedistributionParty.FinishZero | pkg/mpc/zero/hjky/rounds.go:61-102 | Combines verified sharings of zero into a verified share whose vector commits to zero, and writes all vectors in party order; names the sender of a bad one, writing nothing. |
| RedistributionParty.JoinZeroSharing | pkg/mpc/zero/hjky/rounds.go:52-102 | The whole round under arbitrary messages: names only a present sender whose messages are malformed, do not verify or do not commit to zero. |
| RedistributionParty.CoefficientsAt | pkg/mpc/zero/hjky/rounds.go:95-102 | In the transcript each party's coefficients stand between those of the parties before and after it. |
| RedistributionParty.Reshare | pkg/mpc/redistribute/rounds.go:97-150 | Re-shares the sum of the two additive shares; its commitment is the partial key the others expect. |
| RedistributionParty.AggregateBoth | pkg/mpc/redistribute/rounds.go:174-200 | Share and vector aggregated over the senders, one's own contribution first, from nothing when there is none. |
| RedistributionParty.Conclude | pkg/mpc/redistribute/rounds.go:205-325 | Accepts the aggregates only after all checks; blames only misbehaving senders; fails without a culprit only in the listed circumstances. |
| RedistributionParty.Participant.Round1 | pkg/mpc/redistribute/rounds.go:25-55 | Deals a sharing of zero to the other previous shareholders. |
| RedistributionParty.Participant.Round2 | pkg/mpc/redistribute/rounds.go:64-151 | Under arbitrary messages: names only senders of bad zero sharings; completes only when every sharing has the right shape, is addressed here, matches its vector and commits to zero, and then publishes and sends exactly the re-sharing; the transcript grows by the vectors of all previous shareholders. |
| RedistributionParty.Participant.Round3 | pkg/mpc/redistribute/rounds.go:157-326 | Under arbitrary messages: a returned shard verifies, aggregates contributions each of which has the right shape, is addressed here, matches its vector, keeps the old public key and states the metadata of the own shard or of the anchor; a previous shareholder that rejects names a misbehaving sender; the aggregates are recorded as soon as the messages are well formed, whatever is decided then. |
| RedistributionRuns.HonestZero | pkg/mpc/zero/hjky/rounds.go:52-93 | All parties end with shares of one column, and with one vector, whatever order each adds in. |
| RedistributionRuns.ContributionsSum | pkg/mpc/redistribute/rounds.go:97-120 | The additive contributions of all previous shareholders sum to the old secret plus whatever the round-1 dealings sum to, hence to the old secret when they are of zero. |
| RedistributionRuns.SecretShifted | pkg/mpc/redistribute/rounds.go:95-149 | The new column's first entry is the old secret shifted by the round-1 dealings. |
| RedistributionRuns.SecretPreserved | pkg/mpc/redistribute/rounds.go:95-149 | When those are of zero, it is the old secret. |
| RedistributionRuns.HonestSenderGood | pkg/mpc/redistribute/messages.go:80-168 | No check of round 3 rejects a sender that deals its contribution, with or without a reference. |
| RedistributionRuns.HonestAggregate | pkg/mpc/redistribute/rounds.go:174-205 | Every new share is the holder's rows of M' times the new column, and the vector its lift. |
| RedistributionRuns.PlayRound1 | pkg/mpc/redistribute/rounds.go:25-55 | In an honest run round 1 succeeds with the expected messages. |
| RedistributionRuns.PlayRound2 | pkg/mpc/redistribute/rounds.go:64-151 | In an honest run round 2 never aborts and re-shares exactly the contribution. |
| RedistributionRuns.PlayRound3 | pkg/mpc/redistribute/rounds.go:157-326 | In an honest run round 3 never aborts, the new share is M'*R with the old secret as R_0, and the public key is the old one. |
| RedistributionRuns.AnchoredFailure | pkg/mpc/redistribute/rounds.go:248-311 | A witness for the failing case of an anchor: all senders publish one zero vector that does not commit to zero, every message passes every check, and round 3 of a next-only shareholder fails naming nobody. |
| RedistributionNetwork.RoundOne | pkg/mpc/redistribute/runner.go:49-66 | All parties run round 1: every previous shareholder has dealt its column to all others. |
| RedistributionNetwork.RoundTwo | pkg/mpc/redistribute/runner.go:56-91 | All parties run round 2 on what was delivered: every previous shareholder has re-shared its contribution to all next ones. |
| RedistributionNetwork.RoundThree | pkg/mpc/redistribute/runner.go:81-105 | All parties run round 3: exactly the next shareholders get a shard. |
| RedistributionNetwork.Redistribute | pkg/mpc/redistribute/runner.go:36-106 | The whole run over any number of parties, from their constructors to their shards, with any choice of anchors and coins: every next shareholder ends with its share of one new column whose first entry is the old secret, under the old key; nobody else gets anything; and every quorum of the next structure recovers the old secret. |
| RedistributionBlame.SameZeroVector | pkg/mpc/zero/hjky/rounds.go:64-93 | With consistent broadcasts everyone who completes the zero sharing holds the same vector, whatever the shares. |
| RedistributionBlame.RoundOne | pkg/mpc/redistribute/rounds.go:25-55 | Nobody can find fault with what an honest party deals. |
| RedistributionBlame.RoundTwo | pkg/mpc/redistribute/rounds.go:64-151 | With arbitrary messages from the others, honest parties name only faulty ones, and nobody can find fault with what an honest party re-shares. |
| RedistributionBlame.RoundThree | pkg/mpc/redistribute/rounds.go:157-326 | The same for round 3, with inconsistent broadcasts too. |
| RedistributionBlame.MixedRun | pkg/mpc/redistribute/rounds.go:25-326 | Identifiable abort over whole runs: with any number of honest parties, honest anchors, consistent round-1 broadcasts and otherwise arbitrary messages, whoever an honest party names is a faulty previous shareholder; honest parties that complete the zero sharing agree on its vector and transcript; and none of them rejects a complete round 3 without naming somebody. |
| SessionContext.NewContext | pkg/mpc/session/context.go:41-98 | Builds the context byte by byte from the seeds: session identifier and transcript from the common seed, each stream from both identifiers, the smaller first, and the pairwise seed; refuses exactly too small quorums and too short seeds. |
| SessionContext.LittleEndianNumber | pkg/mpc/session/context.go:72-77 | Encoded identifiers can be read back, lowest byte first. |
| SessionContext.AsciiAt | pkg/mpc/session/context.go:71-71 | Labels are absorbed character by character. |
| SessionContext.Context.SubContext | pkg/mpc/session/context.go:140-196 | A context for a sub-quorum, derived through copies: each stream absorbs the parent's next 32 bytes and then the encoded sub-quorum, which the transcript gets too; the parent is not changed. |
| SessionContext.QuorumDataInjective | pkg/mpc/session/context.go:148-158 | Different quorums have different encodings. |
| SessionContext.NarrowApart | pkg/mpc/session/context.go:160-186 | Sub-streams for a common peer differ as soon as the parents' next 32 bytes do, or the sub-quorums; different sub-quorums leave different transcripts. |
| SessionContext.Context.Clone | pkg/mpc/session/context.go:198-215 | An equal, independent context. |
| SessionContext.SortEqual | pkg/mpc/session/context.go:67-68 | Sorting makes the order in which a quorum is enumerated irrelevant. |
| SessionContext.InitialPaired | pkg/mpc/session/context.go:41-98 | One common seed and one pairwise seed give two parties the same session, transcript and stream for each other. |
| SessionContext.SubPaired | pkg/mpc/session/context.go:140-196 | Narrowing to a common sub-quorum keeps this. |
| SessionContext.ChainPaired | pkg/mpc/session/context.go:140-196 | So does any chain of narrowings and transcript entries that both take. |
| SessionContext.Advance | pkg/mpc/session/context.go:134-215 | Taking a context through such a chain reaches exactly the state the chain defines, refuses exactly an improper step, and leaves the original and its streams alone. |
| SessionSetup.Participant.Round1 | pkg/mpc/session/participant.go:94-124 | Commits to a common contribution under the common key. |
| SessionSetup.Participant.Round2 | pkg/mpc/session/participant.go:127-171 | Records the peers' keys and sends each peer the commitment to one contribution for it under that peer's key. |
| SessionSetup.Participant.Round3 | pkg/mpc/session/participant.go:174-223 | Accepts only openings of the commitments sent before; names the peer whose opening fails, with the peers before it recorded. |
| SessionSetup.Participant.Round4 | pkg/mpc/session/participant.go:226-323 | Checks the pairwise openings and derives the context from the common and pairwise seeds; the context construction never fails. |
| SessionSetup.SeedsSuffice | pkg/mpc/session/participant.go:316-319 | The seeds are always long enough for a context. |
| SessionSetup.Play | pkg/mpc/session/participant.go:94-323 | A party finishes exactly when every peer's messages are 32-byte arrays, none all zero, and both openings open the commitments sent before, each under its key; its context is then given byte by byte: the common seed, and for each peer a stream over the common seed and both contributions, the smaller identifier's first. |
| SessionSetup.PresentMeans | pkg/mpc/session/messages.go:15-78 | An array passes validation exactly when it has 32 bytes and is not all zero. |
| SessionSetup.HonestPeerGood | pkg/mpc/session/participant.go:94-323 | What an honest peer sends in the three rounds is good, so honest parties whose messages arrive finish. |
| SessionSetup.CommonSeedAt | pkg/mpc/session/participant.go:239-263 | The common seed is the separator, the size, and one record of 136 bytes for each party in ascending order. |
| SessionSetup.CommonSeedTells | pkg/mpc/session/participant.go:239-263 | It tells the quorum and everything its members published. |
| SessionSetup.PlayApart | pkg/mpc/session/participant.go:239-314 | Two runs: different published contributions feed different bytes to the hash; a different contribution sent to or received from a peer, or anything published, gives a different stream for that peer. |
| SessionSetup.SessionAgreement | pkg/mpc/session/participant.go:226-323 | Honest finishers with consistent broadcasts have the same session identifier and transcript, and party i's stream for j is j's for i. |
| AgreeOnRandom.Participant.Round1 | pkg/mpc/aor/rounds.go:19-44 | Commits to the sampled contribution. |
| AgreeOnRandom.Participant.Round2 | pkg/mpc/aor/rounds.go:47-93 | Records the peers' commitments, appends all of them to the transcript in the order of the parties, and opens its own. |
| AgreeOnRandom.Participant.Round3 | pkg/mpc/aor/rounds.go:69-86 | States what r holds after every outcome. A finishing call outputs the exclusive or of all committed contributions if and only if what earlier aborted calls folded in cancels out, so always on a first call; a blamed sender's opening fails. |
| AgreeOnRandom.RetriedRound3 | pkg/mpc/aor/rounds.go:76-82 | The failing family: a third party's opening is bad in the first call and good in the second, and the second call outputs the exclusive or without the second party's contribution, while a party that was not interrupted outputs all three. |
| AgreeOnRandom.RetryExample | pkg/mpc/aor/rounds.go:76-82 | One concrete input of that family on which the two outputs differ. |
| AgreeOnRandom.XorAnyOrder | pkg/mpc/aor/rounds.go:76-82 | The order of the parties does not matter. |
| AgreeOnRandom.SameOutput | pkg/mpc/aor/rounds.go:76-82 | Equal contributions give equal outputs, however the quorum is enumerated. |
| AgreeOnRandom.Play | pkg/mpc/aor/rounds.go:19-93 | Rounds 1 to 3 played once: a party finishes exactly when every peer's commitment and opening are there, of the right size, not all zero and matching; it outputs the exclusive or of all contributions and has appended all commitments, in ascending order, to its transcript. |
| AgreeOnRandom.PlayTwo | pkg/mpc/aor/rounds.go:19-93 | Two such runs with consistent broadcasts that both finish output the same bytes and extend the transcript alike, in whatever order each visits its peers. |
| BlsAggregation.CoreVerify | pkg/signatures/bls/core.go:149-196 | Accepts exactly proper inputs that satisfy e(H(m), pk) = e(sig, g). |
| BlsAggregation.CoreAggregateVerify | pkg/signatures/bls/core.go:201-261 | Accepts exactly proper inputs that satisfy the product equation. |
| BlsAggregation.AggregateKeys | pkg/signatures/bls/types.go:692-717 | The sum of the keys. |
| BlsAggregation.PairSum | pkg/signatures/bls/participants.go:521-531 | Pairing one point with many keys is pairing it with their sum. |
| BlsAggregation.CancellingKeys | pkg/signatures/bls/core.go:165-171 | Keys that sum to the identity satisfy the equation for no proper signature. |
| BlsAggregation.FastAgainstGeneral | pkg/signatures/bls/participants.go:521-543 | For one repeated message the general path accepts exactly when the fast path does and no message is nil; they differ only for an empty first message mixed with nil ones. |
| BlsAggregation.FastPathAlone | pkg/signatures/bls/participants.go:521-543 | They do differ: for any two proper keys that do not cancel, the honest aggregate over an empty and a nil message passes the fast path only. |
| BlsAggregation.Verifier.AggregateVerify | pkg/signatures/bls/participants.go:454-544 | Accepts exactly when keys, signature and scheme condition are proper and the product equation holds, on either path, stated for each scheme with the hashed messages written out: the messages themselves, or each with its own key in front under message augmentation. |
| BlsAggregation.CoreSign | pkg/signatures/bls/core.go:76-95 | A signature satisfies the equation of its public key. |
| BlsAggregation.CoreAggregateSign | pkg/signatures/bls/core.go:98-117 | One key's aggregate over several messages satisfies the general equation. |
| BlsAggregation.HonestAggregate | pkg/signatures/bls/core.go:98-117 | Sums of honest signatures satisfy the general equation. |
| BlsAggregation.SumOfValid | pkg/signatures/bls/core.go:201-261 | Signatures that are each valid for their own key and message sum to the one aggregate that satisfies the general equation. |
| BlsAggregation.AugmentedAccepted | pkg/signatures/bls/participants.go:504-543 | Under message augmentation the sum of signatures over key and message is accepted. |
| Base58.BuildTable | pkg/base/base58/base58.go:30-40 | The decoding table inverts the alphabet and marks every other byte. |
| Base58.LetterIsAlphabet | pkg/base/base58/base58.go:14-14 | The letters are those of the alphabet, written out. |
| Base58.Encode | pkg/base/base58/base58.go:42-66 | Spells the base-58 digits of the bytes, one leading digit 0 per leading zero byte. |
| Base58.EncodeByte | pkg/base/base58/base58.go:42-66 | Every byte below 58 is encoded as the letter at its place. |
| Base58.EncodeExamples | pkg/base/base58/base58.go:42-66 | Known answers, with leading zeros among them. |
| Base58.CountLeading | pkg/base/utils/common.go:37-43 | The number of leading zero bytes. |
| Base58.Decode | pkg/base/base58/base58.go:70-95 | The inverse change of base; refused exactly when a character lies outside the alphabet, written out. |
| Base58.TranscodeRoundTrip | pkg/base/base58/base58.go:42-95 | Changing base with leading zeros kept, and back, is the identity, for any two bases. |
| Base58.DecodeEncoded | pkg/base/base58/base58.go:42-95 | Decode(Encode(d)) = d for every byte string. |
| Base58.EncodeDecoded | pkg/base/base58/base58.go:42-95 | Encode(Decode(s)) = s for every string over the alphabet. |
| Equivocation.FoldedIsCommit | pkg/commitments/intcom/trapdoor.go:97-115 | The folded exponentiation equals s^m * t^r, for all integers m and r. |
| Equivocation.WitnessRange | pkg/commitments/intcom/key.go:113-114 | Witnesses lie below p*q*2^80 in absolute value. |
| Equivocation.ModulusIsQuarter | pkg/commitments/intcom/trapdoor.go:61-62 | For odd p and q exponents count modulo (p-1)(q-1)/4. |
| Equivocation.SamplingInterval | pkg/commitments/intcom/trapdoor.go:213-233 | The interval for x is never empty and contains exactly the x whose witness is in range. |
| Equivocation.EquivocationOpens | pkg/commitments/intcom/trapdoor.go:202-243 | For every sampled x the new witness is in range and opens the original commitment to the new message, in both forms. |

## Left out

- Serialisation (CBOR): payloads are byte strings, and a codec is any pair that decodes what it encodes.
- Primality tests, random sampling, hashing and curve arithmetic: parameters, sampled values included.
- Hiding, binding, soundness and timing claims: not functional correctness.
- Goroutines, channels, contexts, caches and mutexes: the per-worker and per-party steps are modelled instead.
- SafePrimeOrbit.Worker: draws come from a finite list, whose end is an error of the random source, and are reduced into range instead of rejected; cancellation by another worker is not modelled.
- RedistributionNetwork.Redistribute: delivery is reliable, every party keeps its own copy of what was sent to it, and the exchange under the rounds is that of Router and echo, modelled apart.
- JoyePaillier.ComputeJoyeParams: takes any table of distinct odd primes below 2^15 that starts with 3, instead of the literal table of 2047 primes (pkg/base/nt/joyepaillier.go:36). The product of that table is 25532 bits long and between 3/4 and 4/5 of 2^25532, so ShiftOverflow.OverflowExactly and NoWrapAtAnySize apply to it with n = 25596; that multiplication is not part of the proofs.
- Blum primes and prime pairs (pkg/base/nt/primes.go): sampling loops around opaque tests.
- SquareMatrices.TryInv: over a field only; the original also accepts rings and fails on pivots without inverse.
- Lifting.LeftAction: builds the result row by row instead of writing into a preallocated slice.
- Polynomials.Mul: requires non-empty coefficient lists, which every polynomial of the original has.
- Lifting.EvalModule: requires a non-empty coefficient list, where the original panics.
- ConstantTime.CompareBytes: compares the two lengths as unbounded integers instead of through the signed 64-bit trick, which is proved separately.
- ConstantTime.Isqrt64: the comparison and the selection on words are taken at their proved meaning.
- SpanPrograms.ReconstructionVector: sorted row lists and binary searches are modelled as the order-preserving selection of the rows of some holders.
- Construction of span programs from access structures: the span programs are parameters, and the unanimity one is assumed to qualify all previous shareholders.
- RedistributionParty.Participant.constructor: the checks of the constructor on its arguments are preconditions, and the torsion check on zero vectors is dropped because all group elements belong to one module.
- RedistributionParty.FinishZero: a transcript is the list of coefficients written, without their label and without the domain separator that the constructor writes (pkg/mpc/zero/hjky/participant.go:55).
- MessageRouter.Router.ReceiveFrom: the transport is a finite sequence of deliveries whose end is a receive error; SendTo only wraps the transport.
- EchoBroadcast.Participant.constructor: membership of the party in its quorum is a precondition.
- SessionContext.NarrowApart: identifiers are unbounded numbers in the model; this member and SessionSetup.PlayApart take those below 2^64, and PlayApart 32-byte arrays, as the types of the original say.
- SessionContext.NewContext: transcripts are lists of labelled entries, and a SHAKE instance is what it absorbed and its read position.
- BlsAggregation.Verifier.AggregateVerify: hashing to the curve and the choice of domain tags never fail, and key generation is not modelled.
- Equivocation.EquivocationOpens: the key checks of the constructor enter as s = t^lambda and t^(phi/4) = 1.
- Packing and unpacking of bit strings (pkg/ot/bits.go:13-115), matrix stacking and minors, polynomial derivatives, products with module-valued polynomials, and the bytewise operations beside CompareBytes: they would only add easy members.
- Paillier, ElGamal and prime-order Pedersen: their homomorphic laws follow from the group axioms in a line each.
